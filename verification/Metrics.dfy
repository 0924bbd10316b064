/** The evaluation metrics over reals: discounted cumulative gain, its normalisation, precision and
    the weighted total. The discount 1/log2(rank + 1) is any positive, strictly decreasing
    sequence. */
module Metrics {
  import opened Order

  const TOP_K: nat := 10
  const BEST := 3
  const RELEVANT := 2

  type Discount = nat -> real

  ghost predicate IsDiscount(w: Discount) {
    (forall i :: w(i) > 0.0) && (forall i, j :: i < j ==> w(i) > w(j))
  }

  /** Only the first ten places count. */
  function Weight(w: Discount, i: nat): real {
    if i < TOP_K then w(i) else 0.0
  }

  function Gain(score: int, weight: real): real {
    score as real * weight
  }

  function DcgFrom(gains: seq<int>, at: nat, w: Discount): real {
    if gains == [] then 0.0 else Gain(gains[0], Weight(w, at)) + DcgFrom(gains[1..], at + 1, w)
  }

  lemma Scale(x: int, y: int, weight: real)
    requires x <= y && weight >= 0.0
    ensures Gain(x, weight) <= Gain(y, weight)
    ensures x < y && weight > 0.0 ==> Gain(x, weight) < Gain(y, weight)
    ensures Gain(0, weight) == 0.0 == Gain(y, 0.0)
  {
    assert Gain(y, weight) - Gain(x, weight) == (y - x) as real * weight;
  }

  /** The greater score belongs to the greater weight. */
  lemma Exchange(x: int, y: int, u: real, v: real)
    requires x <= y && u >= v
    ensures Gain(y, u) + Gain(x, v) >= Gain(x, u) + Gain(y, v)
    ensures x < y && u > v ==> Gain(y, u) + Gain(x, v) > Gain(x, u) + Gain(y, v)
  {
    assert Gain(y, u) + Gain(x, v) - Gain(x, u) - Gain(y, v) == (y - x) as real * (u - v);
  }

  lemma {:induction false} DcgBeyond(gains: seq<int>, at: nat, w: Discount)
    requires at >= TOP_K
    ensures DcgFrom(gains, at, w) == 0.0
    decreases |gains|
  {
    if gains != [] {
      Scale(0, 0, 0.0);
      DcgBeyond(gains[1..], at + 1, w);
    }
  }

  method Dcg(gains: seq<int>, w: Discount) returns (total: real)
    ensures total == DcgFrom(gains, 0, w)
  {
    total := 0.0;
    var n := if |gains| <= TOP_K then |gains| else TOP_K;
    for i := 0 to n
      invariant total + DcgFrom(gains[i..], i, w) == DcgFrom(gains, 0, w)
    {
      assert gains[i..][1..] == gains[i + 1..];
      total := total + Gain(gains[i], w(i));
    }
    if n == TOP_K {
      DcgBeyond(gains[n..], n, w);
    }
  }

  /* ---------- Rearrangement ---------- */

  ghost predicate Descending(s: seq<int>) {
    forall i, j :: 0 <= i < j < |s| ==> s[i] >= s[j]
  }

  lemma {:induction false} DcgUpdate(s: seq<int>, k: nat, x: int, at: nat, w: Discount)
    requires k < |s|
    ensures DcgFrom(s[k := x], at, w) == DcgFrom(s, at, w) + Gain(x, Weight(w, at + k)) - Gain(s[k], Weight(w, at + k))
    decreases |s|
  {
    hide Gain, Weight;
    if k == 0 {
      assert s[0 := x][1..] == s[1..];
    } else {
      assert s[k := x][1..] == s[1..][k - 1 := x];
      DcgUpdate(s[1..], k - 1, x, at + 1, w);
    }
  }

  function Swapped(s: seq<int>, i: nat, j: nat): (r: seq<int>)
    requires i < |s| && j < |s|
    ensures multiset(r) == multiset(s)
  {
    s[i := s[j]][j := s[i]]
  }

  lemma WeightsFall(w: Discount, i: nat, j: nat)
    requires IsDiscount(w) && i < j
    ensures Weight(w, i) >= Weight(w, j) >= 0.0
    ensures i < TOP_K ==> Weight(w, i) > Weight(w, j)
  {}

  /** Moving a better score ahead never loses gain, and wins some when it enters the first ten. */
  lemma SwapGains(s: seq<int>, i: nat, j: nat, at: nat, w: Discount)
    requires IsDiscount(w) && i < j < |s| && s[i] <= s[j]
    ensures DcgFrom(Swapped(s, i, j), at, w) >= DcgFrom(s, at, w)
    ensures s[i] < s[j] && at + i < TOP_K ==> DcgFrom(Swapped(s, i, j), at, w) > DcgFrom(s, at, w)
  {
    DcgUpdate(s, i, s[j], at, w);
    DcgUpdate(s[i := s[j]], j, s[i], at, w);
    WeightsFall(w, at + i, at + j);
    Exchange(s[i], s[j], Weight(w, at + i), Weight(w, at + j));
    hide Gain, Weight, IsDiscount, DcgFrom;
  }

  lemma HeadIsGreatest(s: seq<int>, p: seq<int>)
    requires Descending(s) && multiset(s) == multiset(p) && s != []
    ensures s[0] in p && forall x :: x in p ==> x <= s[0]
  {
    assert s[0] in multiset(p);
    forall x | x in p
      ensures x <= s[0]
    {
      assert x in multiset(s);
    }
  }

  lemma SameSize(s: seq<int>, p: seq<int>)
    requires multiset(s) == multiset(p)
    ensures |s| == |p|
  {
    assert |multiset(s)| == |s| && |multiset(p)| == |p|;
  }

  /** Among all orders of a score list, the descending one has the greatest gain. */
  lemma {:induction false} DescendingIsBest(s: seq<int>, p: seq<int>, at: nat, w: Discount)
    requires IsDiscount(w) && Descending(s) && multiset(s) == multiset(p)
    ensures DcgFrom(s, at, w) >= DcgFrom(p, at, w)
    decreases |s|
  {
    hide Gain, Weight, IsDiscount;
    SameSize(s, p);
    if s != [] {
      HeadIsGreatest(s, p);
      var j :| 0 <= j < |p| && p[j] == s[0];
      var q := if j == 0 then p else Swapped(p, 0, j);
      if j > 0 {
        assert p[0] in p;
        SwapGains(p, 0, j, at, w);
      }
      TailsPermute(s, q);
      DescendingIsBest(s[1..], q[1..], at + 1, w);
    }
  }

  /** No better score stands behind one of the first ten places. */
  ghost predicate TopSorted(p: seq<int>, at: nat) {
    forall i, j :: 0 <= i < j < |p| && at + i < TOP_K ==> p[i] >= p[j]
  }

  lemma {:induction false} TopSortedIsBest(s: seq<int>, p: seq<int>, at: nat, w: Discount)
    requires Descending(s) && multiset(s) == multiset(p) && TopSorted(p, at)
    ensures DcgFrom(s, at, w) == DcgFrom(p, at, w)
    decreases |s|
  {
    hide Gain, Weight;
    SameSize(s, p);
    if at >= TOP_K {
      DcgBeyond(s, at, w);
      DcgBeyond(p, at, w);
    } else if s != [] {
      HeadIsGreatest(s, p);
      assert p[0] in multiset(s);
      assert p[0] == s[0];
      TailsPermute(s, p);
      TopSortedIsBest(s[1..], p[1..], at + 1, w);
    }
  }

  /** An order attains the greatest gain exactly when no better score stands behind one of the first
      ten places. */
  lemma BestIff(s: seq<int>, p: seq<int>, w: Discount)
    requires IsDiscount(w) && Descending(s) && multiset(s) == multiset(p)
    ensures DcgFrom(p, 0, w) == DcgFrom(s, 0, w) <==> TopSorted(p, 0)
  {
    hide Gain, Weight, IsDiscount, DcgFrom;
    if TopSorted(p, 0) {
      TopSortedIsBest(s, p, 0, w);
    } else {
      var i, j :| 0 <= i < j < |p| && i < TOP_K && p[i] < p[j];
      SwapGains(p, i, j, 0, w);
      DescendingIsBest(s, Swapped(p, i, j), 0, w);
    }
  }

  /* ---------- Normalised gain ---------- */

  ghost predicate Scores(s: seq<int>) {
    forall i :: 0 <= i < |s| ==> 0 <= s[i] <= 3
  }

  /** Exactly ten scores: the first ten, or all of them and zeros. */
  function Padded(s: seq<int>): (r: seq<int>)
    ensures |r| == TOP_K
    ensures forall i :: 0 <= i < TOP_K ==> r[i] == if i < |s| then s[i] else 0
  {
    seq(TOP_K, i requires 0 <= i < TOP_K => if i < |s| then s[i] else 0)
  }

  const IDEAL := [BEST, BEST, BEST, BEST, BEST, BEST, BEST, BEST, BEST, BEST]

  function Ndcg(s: seq<int>, w: Discount): real {
    var ideal := DcgFrom(IDEAL, 0, w);
    if ideal == 0.0 then 0.0 else DcgFrom(Padded(s), 0, w) / ideal
  }

  lemma {:induction false} DcgMonotone(a: seq<int>, b: seq<int>, at: nat, w: Discount)
    requires IsDiscount(w) && |a| == |b| && forall i :: 0 <= i < |a| ==> a[i] <= b[i]
    ensures DcgFrom(a, at, w) <= DcgFrom(b, at, w)
    ensures (exists i :: 0 <= i < |a| && at + i < TOP_K && a[i] < b[i]) ==> DcgFrom(a, at, w) < DcgFrom(b, at, w)
    decreases |a|
  {
    if a != [] {
      DcgMonotone(a[1..], b[1..], at + 1, w);
      WeightsFall(w, at, at + 1);
      hide Gain, Weight, IsDiscount;
      Scale(a[0], b[0], Weight(w, at));
      if i :| 0 <= i < |a| && at + i < TOP_K && a[i] < b[i] {
        if i > 0 {
          assert a[1..][i - 1] < b[1..][i - 1];
        }
      }
    }
  }

  lemma {:induction false} DcgOfZeros(s: seq<int>, at: nat, w: Discount)
    requires IsDiscount(w) && forall i :: 0 <= i < |s| ==> s[i] == 0
    ensures DcgFrom(s, at, w) == 0.0
    decreases |s|
  {
    if s != [] {
      WeightsFall(w, at, at + 1);
      Scale(0, 0, Weight(w, at));
      hide Gain, Weight, IsDiscount;
      DcgOfZeros(s[1..], at + 1, w);
    }
  }

  lemma IdealPositive(w: Discount)
    requires IsDiscount(w)
    ensures DcgFrom(IDEAL, 0, w) > 0.0
  {
    hide Gain, Weight, IsDiscount, DcgFrom;
    DcgOfZeros(Padded([]), 0, w);
    assert Padded([])[0] < IDEAL[0];
    DcgMonotone(Padded([]), IDEAL, 0, w);
  }

  ghost predicate TopAreBest(s: seq<int>) {
    |s| >= 10 && forall i :: 0 <= i < 10 ==> s[i] == 3
  }

  lemma Quotient(x: real, y: real, z: real)
    requires z > 0.0
    ensures x <= y ==> x / z <= y / z
    ensures x < y ==> x / z < y / z
    ensures 0.0 / z == 0.0 && z / z == 1.0
  {}

  lemma PaddedIdealIff(s: seq<int>)
    requires Scores(s)
    ensures forall i :: 0 <= i < TOP_K ==> 0 <= Padded(s)[i] <= IDEAL[i]
    ensures TopAreBest(s) ==> Padded(s) == IDEAL
    ensures !TopAreBest(s) ==> exists i :: 0 <= i < TOP_K && Padded(s)[i] < IDEAL[i]
  {
    if !TopAreBest(s) {
      var i := if |s| < TOP_K then |s| else (var k :| 0 <= k < TOP_K && s[k] != BEST; k);
      assert Padded(s)[i] < IDEAL[i];
    }
  }

  /** The normalised gain lies in [0, 1], and is 1 exactly when the first ten scores exist and are
      all 3. */
  lemma NdcgRange(s: seq<int>, w: Discount)
    requires IsDiscount(w) && Scores(s)
    ensures 0.0 <= Ndcg(s, w) <= 1.0
    ensures Ndcg(s, w) == 1.0 <==> TopAreBest(s)
  {
    var p, ideal := Padded(s), DcgFrom(IDEAL, 0, w);
    PaddedIdealIff(s);
    hide Gain, Weight, IsDiscount, DcgFrom, Padded, TopAreBest, Scores;
    IdealPositive(w);
    DcgOfZeros(Padded([]), 0, w);
    DcgMonotone(Padded([]), p, 0, w);
    DcgMonotone(p, IDEAL, 0, w);
    Quotient(0.0, DcgFrom(p, 0, w), ideal);
    Quotient(DcgFrom(p, 0, w), ideal, ideal);
  }

  ghost predicate NoWorse(a: seq<int>, b: seq<int>) {
    forall i :: 0 <= i < TOP_K ==> Padded(a)[i] <= Padded(b)[i]
  }

  lemma NdcgMonotone(a: seq<int>, b: seq<int>, w: Discount)
    requires IsDiscount(w) && NoWorse(a, b)
    ensures Ndcg(a, w) <= Ndcg(b, w)
    ensures (exists i :: 0 <= i < TOP_K && Padded(a)[i] < Padded(b)[i]) ==> Ndcg(a, w) < Ndcg(b, w)
  {
    hide Gain, Weight, IsDiscount, DcgFrom;
    IdealPositive(w);
    DcgMonotone(Padded(a), Padded(b), 0, w);
    Quotient(DcgFrom(Padded(a), 0, w), DcgFrom(Padded(b), 0, w), DcgFrom(IDEAL, 0, w));
  }

  /** The worth of a place: its score times its discount, or nothing where there is no score. */
  function Worth(s: seq<int>, w: Discount, place: nat): real {
    if place < |s| then s[place] as real * w(place) else 0.0
  }

  /** The worth of the first `n` places. */
  function WorthOf(s: seq<int>, w: Discount, n: nat): real {
    if n == 0 then 0.0 else WorthOf(s, w, n - 1) + Worth(s, w, n - 1)
  }

  lemma {:induction false} WorthBeyond(s: seq<int>, w: Discount, n: nat)
    requires n >= |s|
    ensures WorthOf(s, w, n) == WorthOf(s, w, |s|)
    decreases n
  {
    if n > |s| {
      WorthBeyond(s, w, n - 1);
    }
  }

  lemma {:induction false} DcgIsWorth(s: seq<int>, n: nat, w: Discount)
    requires n <= |s| && n <= 10
    ensures DcgFrom(s, 0, w) == WorthOf(s, w, n) + DcgFrom(s[n..], n, w)
  {
    if n == 0 {
      assert s[0..] == s;
    } else {
      DcgIsWorth(s, n - 1, w);
      assert s[n - 1..][1..] == s[n..];
    }
  }

  /** The gain of a list is the worth of its first ten places. */
  lemma DcgOfTen(s: seq<int>, w: Discount)
    ensures DcgFrom(s, 0, w) == WorthOf(s, w, 10)
  {
    if |s| <= 10 {
      DcgIsWorth(s, |s|, w);
      WorthBeyond(s, w, 10);
    } else {
      DcgIsWorth(s, 10, w);
      DcgBeyond(s[10..], 10, w);
    }
  }

  lemma {:induction false} PaddedWorth(s: seq<int>, w: Discount, n: nat)
    requires n <= 10
    ensures WorthOf(Padded(s), w, n) == WorthOf(s, w, n)
  {
    if n > 0 {
      PaddedWorth(s, w, n - 1);
      assert Worth(Padded(s), w, n - 1) == Worth(s, w, n - 1);
    }
  }

  /** The normalised gain is the worth of the first ten places over that of ten threes. */
  lemma NdcgIs(s: seq<int>, w: Discount)
    requires IsDiscount(w)
    ensures WorthOf([3, 3, 3, 3, 3, 3, 3, 3, 3, 3], w, 10) > 0.0
    ensures Ndcg(s, w) == WorthOf(s, w, 10) / WorthOf([3, 3, 3, 3, 3, 3, 3, 3, 3, 3], w, 10)
  {
    IdealPositive(w);
    DcgOfTen(IDEAL, w);
    DcgOfTen(Padded(s), w);
    PaddedWorth(s, w, 10);
    hide DcgFrom, IsDiscount, Padded, WorthOf;
  }

  /* ---------- Precision and total ---------- */

  function Hits(s: seq<int>): (n: nat)
    ensures n <= |s|
  {
    if s == [] then 0 else (if s[0] >= RELEVANT then 1 else 0) + Hits(s[1..])
  }

  function Precision(s: seq<int>): real {
    Hits(Padded(s)) as real / TOP_K as real
  }

  lemma {:induction false} HitsMonotone(a: seq<int>, b: seq<int>)
    requires |a| == |b| && forall i :: 0 <= i < |a| ==> a[i] <= b[i]
    ensures Hits(a) <= Hits(b)
  {
    if a != [] {
      HitsMonotone(a[1..], b[1..]);
    }
  }

  lemma {:induction false} HitsAll(s: seq<int>)
    ensures Hits(s) == |s| <==> forall i :: 0 <= i < |s| ==> s[i] >= RELEVANT
  {
    if s != [] {
      HitsAll(s[1..]);
      assert forall i :: 0 < i < |s| ==> s[i] == s[1..][i - 1];
    }
  }

  /** The places among the first ten that hold a score of at least 2. */
  ghost function Relevant(s: seq<int>): set<nat> {
    set i: nat | i < 10 && i < |s| && s[i] >= 2
  }

  ghost function RelevantFrom(s: seq<int>, at: nat): set<nat> {
    set i: nat | at <= i < |s| && s[i] >= 2
  }

  lemma {:induction false} HitsCount(s: seq<int>, at: nat)
    requires at <= |s|
    ensures Hits(s[at..]) == |RelevantFrom(s, at)|
    decreases |s| - at
  {
    if at == |s| {
      assert RelevantFrom(s, at) == {};
    } else {
      HitsCount(s, at + 1);
      assert s[at..][1..] == s[at + 1..];
      assert RelevantFrom(s, at) == if s[at] >= 2 then {at} + RelevantFrom(s, at + 1) else RelevantFrom(s, at + 1);
    }
  }

  /** Precision is the number of relevant scores among the first ten, in tenths. */
  lemma PrecisionCounts(s: seq<int>)
    ensures Precision(s) * 10.0 == |Relevant(s)| as real
  {
    HitsCount(Padded(s), 0);
    assert Padded(s)[0..] == Padded(s);
    assert RelevantFrom(Padded(s), 0) == Relevant(s);
  }

  /** Precision lies in [0, 1], and is 1 exactly when the first ten scores exist and are relevant. */
  lemma PrecisionRange(s: seq<int>)
    ensures 0.0 <= Precision(s) <= 1.0
    ensures Precision(s) == 1.0 <==> |s| >= 10 && forall i :: 0 <= i < 10 ==> s[i] >= 2
  {
    HitsAll(Padded(s));
    assert Precision(s) == 1.0 <==> Hits(Padded(s)) == TOP_K;
    if |s| < TOP_K {
      assert Padded(s)[|s|] == 0;
    } else {
      assert forall i :: 0 <= i < TOP_K ==> Padded(s)[i] == s[i];
    }
  }

  function Total(ndcg: real, precision: real): real {
    ndcg * 0.3 + precision * 0.7
  }

  /** Each relevant score among the first ten is worth 0.07 of the total, and a full gain 0.3. */
  lemma TotalCounts(s: seq<int>, w: Discount)
    ensures Total(Ndcg(s, w), Precision(s)) == 0.3 * Ndcg(s, w) + 0.07 * |Relevant(s)| as real
  {
    PrecisionCounts(s);
    hide Ndcg, Precision, Relevant;
    assert Total(Ndcg(s, w), Precision(s)) == 0.3 * Ndcg(s, w) + 0.07 * (Precision(s) * 10.0);
  }

  /** The total of a stage lies in [0, 1], never falls when a score rises, and is 1 exactly for ten
      best scores. */
  lemma TotalRange(s: seq<int>, w: Discount)
    requires IsDiscount(w) && Scores(s)
    ensures 0.0 <= Total(Ndcg(s, w), Precision(s)) <= 1.0
    ensures Total(Ndcg(s, w), Precision(s)) == 1.0 <==> TopAreBest(s)
  {
    NdcgRange(s, w);
    PrecisionRange(s);
  }

  lemma TotalMonotone(a: seq<int>, b: seq<int>, w: Discount)
    requires IsDiscount(w) && NoWorse(a, b)
    ensures Total(Ndcg(a, w), Precision(a)) <= Total(Ndcg(b, w), Precision(b))
  {
    NdcgMonotone(a, b, w);
    HitsMonotone(Padded(a), Padded(b));
  }
}
