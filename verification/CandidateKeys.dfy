/** The keys by which items and responses are compared, and what these orders mean field by field. */
module CandidateKeys {
  import opened Options
  import opened Order
  import opened CandidateIdentity

  datatype Level = Card | Detail | Final

  /** A year, and a month when the text gives one. */
  datatype Date = Date(year: int, month: Option<int>)

  /** A review item. `current` and `dates` are what the freshness pattern finds in its texts. */
  datatype Item = Item(
    subject: Subject,
    current: bool,
    dates: seq<Date>,
    score: Option<int>,
    level: Level,
    updatedAt: string,
    fitBucket: string,
    badges: seq<string>)

  datatype Response = Response(
    canonicalId: string,
    identity: string,
    merged: seq<string>,
    rank: nat,
    score: Option<int>,
    fitBucket: string,
    level: Level,
    badges: seq<string>,
    evidence: seq<string>)

  /* ---------- Sort keys ---------- */

  function LevelRank(level: Level): int {
    match level case Card => 0 case Detail => 1 case Final => 2
  }

  /** A missing score ranks below every real one. */
  function Effective(score: Option<int>): int {
    if score.Some? then score.value else -1
  }

  function DateKey(d: Date): seq<int> {
    [d.year, if d.month.Some? then d.month.value else 12]
  }

  /** The greatest date, where a year alone counts as its December and no date as year 0, month 0. */
  function Latest(dates: seq<Date>): (r: seq<int>)
    ensures |r| == 2
    ensures Leq([0, 0], r) && forall d :: d in dates ==> Leq(DateKey(d), r)
    ensures r == [0, 0] || exists d :: d in dates && r == DateKey(d)
  {
    if dates == [] then [0, 0]
    else
      var n := |dates| - 1;
      var best := Latest(dates[..n]);
      var key := DateKey(dates[n]);
      assert dates == dates[..n] + [dates[n]];
      LeqTotal(key, best);
      if Leq(key, best) then best
      else
        LeqTotal(key, key);
        LeqTransitive([0, 0], best, key);
        assert forall d :: d in dates ==> Leq(DateKey(d), key) by {
          forall d | d in dates[..n]
            ensures Leq(DateKey(d), key)
          {
            LeqTransitive(DateKey(d), best, key);
          }
        }
        key
  }

  lemma PairLeq(a: int, b: int, c: int, d: int)
    ensures Leq([a, b], [c, d]) <==> a < c || (a == c && b <= d)
  {
    assert [a, b][1..] == [b] && [c, d][1..] == [d] && [b][1..] == [] && [d][1..] == [];
    assert Leq([b], [d]) <==> b <= d;
  }

  lemma LatestSnoc(dates: seq<Date>, d: Date)
    ensures Latest(dates + [d]) == if Leq(DateKey(d), Latest(dates)) then Latest(dates) else DateKey(d)
  {
    assert (dates + [d])[..|dates|] == dates;
  }

  method LatestDate(dates: seq<Date>) returns (year: int, month: int)
    ensures [year, month] == Latest(dates)
  {
    hide Leq;
    year, month := 0, 0;
    for i := 0 to |dates|
      invariant [year, month] == Latest(dates[..i])
    {
      assert dates[..i + 1] == dates[..i] + [dates[i]];
      LatestSnoc(dates[..i], dates[i]);
      var m := if dates[i].month.Some? then dates[i].month.value else 12;
      PairLeq(dates[i].year, m, year, month);
      assert DateKey(dates[i]) == [dates[i].year, m];
      if dates[i].year > year || (dates[i].year == year && m > month) {
        year, month := dates[i].year, m;
      }
    }
    assert dates[..|dates|] == dates;
  }

  /** (freshness, evidence level, score, updated at), compared in that order. */
  function CanonicalKey(x: Item): seq<int> {
    [if x.current then 1 else 0] + Latest(x.dates) + [LevelRank(x.level), Effective(x.score)] + Codes(x.updatedAt)
  }

  function ScoreKey(x: Item): seq<int> {
    [Effective(x.score), LevelRank(x.level)] + Codes(x.updatedAt)
  }

  function RankKey(r: Response): seq<int> {
    [Effective(r.score), LevelRank(r.level)] + Codes(r.canonicalId)
  }

  /* ---------- The orders, field by field ---------- */

  /** A year alone counts as its December. */
  ghost predicate LaterDate(d: Date, e: Date) {
    || d.year > e.year
    || (d.year == e.year && (if d.month.Some? then d.month.value else 12) > if e.month.Some? then e.month.value else 12)
  }

  /** Some date of the one list is later than all dates of the other, and than none at all. */
  ghost predicate LaterDates(xs: seq<Date>, ys: seq<Date>) {
    exists d :: d in xs + [Date(0, Some(0))] && forall e :: e in ys + [Date(0, Some(0))] ==> LaterDate(d, e)
  }

  ghost predicate Fresher(x: Item, y: Item) {
    (x.current && !y.current) || (x.current == y.current && LaterDates(x.dates, y.dates))
  }

  ghost predicate HigherLevel(a: Level, b: Level) {
    (a == Final && b != Final) || (a == Detail && b == Card)
  }

  /** A missing score counts as one of -1, below every real one. */
  ghost predicate HigherScore(a: Option<int>, b: Option<int>) {
    match (a, b)
    case (Some(m), Some(n)) => m > n
    case (Some(m), None) => m > -1
    case (None, Some(n)) => n < -1
    case (None, None) => false
  }

  /** The first difference decides; a longer text comes after its beginning. */
  ghost predicate LaterText(s: string, t: string) {
    exists i: nat :: i < |s| && i <= |t| && s[..i] == t[..i] && (i == |t| || s[i] > t[i])
  }

  /** Which of two items rather stands for a group: the fresher one, then the one with the higher level
      of evidence, then the one with the higher score, then the one updated later. */
  ghost predicate Beats(x: Item, y: Item) {
    || Fresher(x, y)
    || (!Fresher(y, x) && (HigherLevel(x.level, y.level)
                           || (x.level == y.level
                               && (HigherScore(x.score, y.score)
                                   || (!HigherScore(y.score, x.score) && LaterText(x.updatedAt, y.updatedAt))))))
  }

  /** Which of two items rather gives a group its score. */
  ghost predicate Outscores(x: Item, y: Item) {
    || HigherScore(x.score, y.score)
    || (!HigherScore(y.score, x.score) && (HigherLevel(x.level, y.level)
                                           || (x.level == y.level && LaterText(x.updatedAt, y.updatedAt))))
  }

  /** Which of two responses comes first. */
  ghost predicate Outranks(r: Response, r': Response) {
    || HigherScore(r.score, r'.score)
    || (!HigherScore(r'.score, r.score) && (HigherLevel(r.level, r'.level)
                                            || (r.level == r'.level && LaterText(r.canonicalId, r'.canonicalId))))
  }

  lemma LeqHead(a: int, s: seq<int>, b: int, t: seq<int>)
    ensures Leq([a] + s, [b] + t) <==> a < b || (a == b && Leq(s, t))
  {
    assert ([a] + s)[1..] == s && ([b] + t)[1..] == t;
  }

  /** The one text is not later exactly when its codes come first or are the same. */
  lemma {:induction false} TextOrder(s: string, t: string)
    ensures Leq(Codes(s), Codes(t)) <==> !LaterText(s, t)
    decreases |s|
  {
    if s == "" {
    } else if t == "" || s[0] > t[0] {
      assert s[..0] == t[..0];
      assert LaterText(s, t);
    } else {
      assert Codes(s) == [s[0] as int] + Codes(s[1..]) && Codes(t) == [t[0] as int] + Codes(t[1..]);
      LeqHead(s[0] as int, Codes(s[1..]), t[0] as int, Codes(t[1..]));
      TextOrder(s[1..], t[1..]);
      LaterTail(s, t);
    }
  }

  lemma LaterTail(s: string, t: string)
    requires s != "" && t != "" && s[0] <= t[0]
    ensures LaterText(s, t) <==> s[0] == t[0] && LaterText(s[1..], t[1..])
  {
    if i: nat :| i < |s| && i <= |t| && s[..i] == t[..i] && (i == |t| || s[i] > t[i]) {
      assert i > 0;
      assert s[..i][0] == t[..i][0];
      assert s[1..][..i - 1] == s[..i][1..] && t[1..][..i - 1] == t[..i][1..];
    }
    if s[0] == t[0] {
      if i: nat :| i < |s[1..]| && i <= |t[1..]| && s[1..][..i] == t[1..][..i]
                   && (i == |t[1..]| || s[1..][i] > t[1..][i]) {
        assert s[..i + 1] == [s[0]] + s[1..][..i] && t[..i + 1] == [t[0]] + t[1..][..i];
      }
    }
  }

  lemma DateOrder(d: Date, e: Date)
    ensures LaterDate(d, e) <==> !Leq(DateKey(d), DateKey(e))
  {
    PairLeq(DateKey(d)[0], DateKey(d)[1], DateKey(e)[0], DateKey(e)[1]);
  }

  /** The latest of the dates, none at all included. */
  lemma LatestIs(dates: seq<Date>) returns (d: Date)
    ensures d in dates + [Date(0, Some(0))] && Latest(dates) == DateKey(d)
    ensures forall e :: e in dates + [Date(0, Some(0))] ==> Leq(DateKey(e), Latest(dates))
  {
    assert DateKey(Date(0, Some(0))) == [0, 0];
    if Latest(dates) == [0, 0] {
      d := Date(0, Some(0));
    } else {
      d :| d in dates && Latest(dates) == DateKey(d);
    }
    hide Latest, DateKey, Leq;
  }

  lemma DatesOrder(xs: seq<Date>, ys: seq<Date>)
    ensures LaterDates(xs, ys) <==> !Leq(Latest(xs), Latest(ys))
  {
    var d := LatestIs(xs);
    var e := LatestIs(ys);
    hide Latest, Leq, DateKey, LaterDate;
    if !Leq(Latest(xs), Latest(ys)) {
      forall f | f in ys + [Date(0, Some(0))]
        ensures LaterDate(d, f)
      {
        if Leq(DateKey(d), DateKey(f)) {
          LeqTransitive(DateKey(d), DateKey(f), Latest(ys));
        }
        DateOrder(d, f);
      }
    }
    if LaterDates(xs, ys) {
      var f :| f in xs + [Date(0, Some(0))] && forall g :: g in ys + [Date(0, Some(0))] ==> LaterDate(f, g);
      DateOrder(f, e);
      if Leq(Latest(xs), Latest(ys)) {
        LeqTransitive(DateKey(f), Latest(xs), Latest(ys));
      }
    }
  }

  lemma LeqPair(a: int, p: int, q: int, s: seq<int>, b: int, m: int, n: int, t: seq<int>)
    ensures Leq([a] + [p, q] + s, [b] + [m, n] + t)
       <==> a < b || (a == b && (p < m || (p == m && (q < n || (q == n && Leq(s, t))))))
  {
    assert [a] + [p, q] + s == [a] + ([p] + ([q] + s)) && [b] + [m, n] + t == [b] + ([m] + ([n] + t));
    LeqHead(a, [p] + ([q] + s), b, [m] + ([n] + t));
    LeqHead(p, [q] + s, m, [n] + t);
    LeqHead(q, s, n, t);
    hide Leq;
  }

  /** A freshness marker, then the dates, then the rest. */
  lemma FresherOrder(x: Item, y: Item, s: seq<int>, t: seq<int>)
    ensures Leq([if x.current then 1 else 0] + Latest(x.dates) + s, [if y.current then 1 else 0] + Latest(y.dates) + t)
       <==> Fresher(y, x) || (!Fresher(x, y) && Leq(s, t))
  {
    var (p, q) := (Latest(x.dates), Latest(y.dates));
    DatesOrder(x.dates, y.dates);
    DatesOrder(y.dates, x.dates);
    LeqPair(if x.current then 1 else 0, p[0], p[1], s, if y.current then 1 else 0, q[0], q[1], t);
    PairLeq(p[0], p[1], q[0], q[1]);
    PairLeq(q[0], q[1], p[0], p[1]);
    assert p == [p[0], p[1]] && q == [q[0], q[1]];
    hide Leq, Latest, LaterDates;
  }

  lemma LevelOrder(a: Level, b: Level)
    ensures HigherLevel(a, b) <==> LevelRank(a) > LevelRank(b)
    ensures a == b <==> LevelRank(a) == LevelRank(b)
  {}

  lemma ScoreOrder(a: Option<int>, b: Option<int>)
    ensures HigherScore(a, b) <==> Effective(a) > Effective(b)
  {}

  /** Two ranks and a text. */
  lemma TripleOrder(a: int, b: int, s: string, c: int, d: int, t: string)
    ensures Leq([a, b] + Codes(s), [c, d] + Codes(t))
       <==> a < c || (a == c && (b < d || (b == d && !LaterText(s, t))))
  {
    assert [a, b] + Codes(s) == [a] + ([b] + Codes(s)) && [c, d] + Codes(t) == [c] + ([d] + Codes(t));
    LeqHead(a, [b] + Codes(s), c, [d] + Codes(t));
    LeqHead(b, Codes(s), d, Codes(t));
    TextOrder(s, t);
    hide Leq, Codes, LaterText;
  }

  /** The key of the code orders items as the fields do. */
  lemma BeatsIff(x: Item, y: Item)
    ensures Beats(x, y) <==> !Leq(CanonicalKey(x), CanonicalKey(y))
  {
    var (s, t) := ([LevelRank(x.level), Effective(x.score)] + Codes(x.updatedAt),
                   [LevelRank(y.level), Effective(y.score)] + Codes(y.updatedAt));
    assert CanonicalKey(x) == [if x.current then 1 else 0] + Latest(x.dates) + s;
    assert CanonicalKey(y) == [if y.current then 1 else 0] + Latest(y.dates) + t;
    FresherOrder(x, y, s, t);
    TripleOrder(LevelRank(x.level), Effective(x.score), x.updatedAt,
                LevelRank(y.level), Effective(y.score), y.updatedAt);
    LevelOrder(x.level, y.level);
    LevelOrder(y.level, x.level);
    ScoreOrder(x.score, y.score);
    ScoreOrder(y.score, x.score);
    FresherOneWay(x, y);
    hide Leq, Latest, Codes, Fresher, HigherLevel, HigherScore, LevelRank, Effective, LaterText, CanonicalKey;
  }

  lemma FresherOneWay(x: Item, y: Item)
    ensures !(Fresher(x, y) && Fresher(y, x))
  {
    DatesOrder(x.dates, y.dates);
    DatesOrder(y.dates, x.dates);
    LeqTotal(Latest(x.dates), Latest(y.dates));
    hide Latest, LaterDates, Leq;
  }

  lemma OutscoresIff(x: Item, y: Item)
    ensures Outscores(x, y) <==> !Leq(ScoreKey(x), ScoreKey(y))
  {
    TripleOrder(Effective(x.score), LevelRank(x.level), x.updatedAt,
                Effective(y.score), LevelRank(y.level), y.updatedAt);
    LevelOrder(x.level, y.level);
    LevelOrder(y.level, x.level);
    ScoreOrder(x.score, y.score);
    ScoreOrder(y.score, x.score);
    hide Leq, Codes, HigherLevel, HigherScore, LevelRank, Effective, LaterText;
  }

  lemma OutranksIff(r: Response, r': Response)
    ensures Outranks(r, r') <==> !Leq(RankKey(r), RankKey(r'))
  {
    TripleOrder(Effective(r.score), LevelRank(r.level), r.canonicalId,
                Effective(r'.score), LevelRank(r'.level), r'.canonicalId);
    LevelOrder(r.level, r'.level);
    LevelOrder(r'.level, r.level);
    ScoreOrder(r.score, r'.score);
    ScoreOrder(r'.score, r.score);
    hide Leq, Codes, HigherLevel, HigherScore, LevelRank, Effective, LaterText;
  }
}
