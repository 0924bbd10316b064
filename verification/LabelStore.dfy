/** The label store that concurrent evaluations share: each looks its snapshots up, asks about those it
    missed, and writes its answers later; a write replaces whatever label is there by then. */
module LabelStore {
  import opened Judging

  /** Evaluation `who` looks a key up, or writes its answer for a key it has missed. */
  datatype Access = Look(who: nat, key: LabelKey) | Put(who: nat, key: LabelKey)

  /** The keys that have a label, and the keys each evaluation has missed and not yet written. */
  datatype Shape = Shape(known: set<LabelKey>, missed: set<(nat, LabelKey)>)

  type Answers = (nat, LabelKey) -> Label

  predicate Enabled(s: Shape, e: Access) {
    e.Put? ==> (e.who, e.key) in s.missed
  }

  function Step(s: Shape, e: Access): Shape {
    match e
    case Look(who, key) => if key in s.known then s else s.(missed := s.missed + {(who, key)})
    case Put(who, key) => Shape(s.known + {key}, s.missed - {(who, key)})
  }

  /** After the first `n` accesses, from the labels of `store`. */
  ghost function At(store: Store, es: seq<Access>, n: nat): Shape
    requires n <= |es|
  {
    if n == 0 then Shape(store.Keys, {}) else Step(At(store, es, n - 1), es[n - 1])
  }

  ghost predicate IsRun(store: Store, es: seq<Access>) {
    forall n :: 0 <= n < |es| ==> Enabled(At(store, es, n), es[n])
  }

  /** The labels after the first `n` accesses. */
  ghost function StoreAt(store: Store, es: seq<Access>, answers: Answers, n: nat): Store
    requires n <= |es|
  {
    if n == 0 then store
    else
      var (before, e) := (StoreAt(store, es, answers, n - 1), es[n - 1]);
      if e.Put? then before[e.key := answers(e.who, e.key)] else before
  }

  /** Access `n` changes no label that is there. */
  ghost predicate Keeps(store: Store, es: seq<Access>, answers: Answers, n: nat)
    requires n < |es|
  {
    var (before, e) := (StoreAt(store, es, answers, n), es[n]);
    e.Put? && e.key in before ==> before[e.key] == answers(e.who, e.key)
  }

  /** Whatever the evaluations answer, no label ever changes. */
  ghost predicate AlwaysKept(store: Store, es: seq<Access>) {
    forall answers, n: nat :: n < |es| ==> Keeps(store, es, answers, n)
  }

  /** Between an evaluation's lookup and its write, another evaluation writes the same key. */
  ghost predicate Raced(es: seq<Access>) {
    exists a: nat, b: nat, c: nat :: Races(es, a, b, c)
  }

  ghost predicate Races(es: seq<Access>, a: nat, b: nat, c: nat) {
    && a < b < c < |es| && es[a].Look? && es[b].Put? && es[c].Put?
    && es[a].key == es[b].key == es[c].key && es[a].who == es[c].who != es[b].who
  }

  /* ---------- What is known and missed ---------- */

  ghost predicate PutAt(es: seq<Access>, b: nat, key: LabelKey) {
    b < |es| && es[b].Put? && es[b].key == key
  }

  lemma {:induction false} KnownIff(store: Store, es: seq<Access>, n: nat, key: LabelKey)
    requires n <= |es|
    ensures key in At(store, es, n).known <==> key in store || exists b: nat :: b < n && PutAt(es, b, key)
  {
    if n > 0 {
      KnownIff(store, es, n - 1, key);
      assert key in At(store, es, n).known <==> key in At(store, es, n - 1).known || PutAt(es, n - 1, key);
    }
  }

  /** The lookup that missed, with no write of the same evaluation since. */
  ghost predicate MissedAt(store: Store, es: seq<Access>, a: nat, n: nat, who: nat, key: LabelKey) {
    && a < n <= |es| && es[a] == Look(who, key) && key !in At(store, es, a).known
    && forall b :: a < b < n ==> es[b] != Put(who, key)
  }

  lemma {:induction false} MissedMeans(store: Store, es: seq<Access>, n: nat, who: nat, key: LabelKey) returns (a: nat)
    requires n <= |es| && (who, key) in At(store, es, n).missed
    ensures MissedAt(store, es, a, n, who, key)
  {
    if (who, key) in At(store, es, n - 1).missed {
      a := MissedMeans(store, es, n - 1, who, key);
    } else {
      a := n - 1;
    }
  }

  lemma {:induction false} StoreKeys(store: Store, es: seq<Access>, answers: Answers, n: nat)
    requires n <= |es|
    ensures StoreAt(store, es, answers, n).Keys == At(store, es, n).known
  {
    if n > 0 {
      StoreKeys(store, es, answers, n - 1);
    }
  }

  /* ---------- Races and second writes ---------- */

  /** Access `c` writes a key that has a label. */
  ghost predicate Second(store: Store, es: seq<Access>, c: nat) {
    c < |es| && es[c].Put? && es[c].key in At(store, es, c).known
  }

  lemma WrittenSince(store: Store, es: seq<Access>, a: nat, c: nat, key: LabelKey) returns (b: nat)
    requires a <= c <= |es| && key !in At(store, es, a).known && key in At(store, es, c).known
    ensures a <= b < c && PutAt(es, b, key)
  {
    KnownIff(store, es, c, key);
    KnownIff(store, es, a, key);
    hide At;
    b :| b < c && PutAt(es, b, key);
  }

  lemma SecondMissed(store: Store, es: seq<Access>, c: nat) returns (a: nat)
    requires IsRun(store, es) && Second(store, es, c)
    ensures MissedAt(store, es, a, c, es[c].who, es[c].key)
  {
    assert Enabled(At(store, es, c), es[c]);
    hide At, MissedAt, IsRun;
    a := MissedMeans(store, es, c, es[c].who, es[c].key);
  }

  /** A second write is the end of a race: the writer looked before the key's first write. */
  lemma SecondRaces(store: Store, es: seq<Access>, c: nat) returns (a: nat, b: nat)
    requires IsRun(store, es) && Second(store, es, c)
    ensures Races(es, a, b, c) && MissedAt(store, es, a, c, es[c].who, es[c].key)
  {
    hide At, IsRun;
    a := SecondMissed(store, es, c);
    b := WrittenSince(store, es, a, c, es[c].key);
    assert es[a] == Look(es[c].who, es[c].key) && b != a;
    assert es[b] != Put(es[c].who, es[c].key);
  }

  lemma RaceIsSecond(store: Store, es: seq<Access>, a: nat, b: nat, c: nat)
    requires Races(es, a, b, c)
    ensures Second(store, es, c)
  {
    KnownIff(store, es, c, es[c].key);
    assert PutAt(es, b, es[c].key);
  }

  /** When `who` answers differently from all others, what it missed shows another's answer until its
      own write. */
  lemma {:induction false} OthersAnswer(store: Store, es: seq<Access>, answers: Answers, a: nat, n: nat, c: nat,
                                        who: nat, key: LabelKey, other: Label)
    requires MissedAt(store, es, a, c, who, key) && a <= n <= c
    requires forall x, k :: x != who ==> answers(x, k) == other
    ensures key in StoreAt(store, es, answers, n) ==> StoreAt(store, es, answers, n)[key] == other
  {
    if n == a {
      StoreKeys(store, es, answers, a);
    } else {
      OthersAnswer(store, es, answers, a, n - 1, c, who, key, other);
      assert n - 1 > a ==> es[n - 1] != Put(who, key);
    }
  }

  lemma SecondChanges(store: Store, es: seq<Access>, c: nat)
    requires IsRun(store, es) && Second(store, es, c)
    ensures !AlwaysKept(store, es)
  {
    var who, key := es[c].who, es[c].key;
    var own, other := Label(1, ""), Label(0, "");
    var answers: Answers := (x, k) => if x == who then own else other;
    var a, b := SecondRaces(store, es, c);
    OthersAnswer(store, es, answers, a, c, c, who, key, other);
    StoreKeys(store, es, answers, c);
    assert !Keeps(store, es, answers, c);
  }

  /** Over every run of concurrent evaluations: labels are kept whatever is answered exactly when no
      evaluation writes a key between another's lookup of it and that other's write. */
  lemma LabelsKeptIff(store: Store, es: seq<Access>)
    requires IsRun(store, es)
    ensures AlwaysKept(store, es) <==> !Raced(es)
  {
    if Raced(es) {
      var a: nat, b: nat, c: nat :| Races(es, a, b, c);
      RaceIsSecond(store, es, a, b, c);
      SecondChanges(store, es, c);
    } else {
      forall answers, n: nat | n < |es|
        ensures Keeps(store, es, answers, n)
      {
        NoRaceKeeps(store, es, answers, n);
      }
    }
  }

  lemma NoRaceKeeps(store: Store, es: seq<Access>, answers: Answers, n: nat)
    requires IsRun(store, es) && !Raced(es) && n < |es|
    ensures Keeps(store, es, answers, n)
  {
    StoreKeys(store, es, answers, n);
    if Second(store, es, n) {
      var a, b := SecondRaces(store, es, n);
    }
  }

  /** Two evaluations of one task that both miss a snapshot: the later answer replaces the earlier. */
  lemma LaterAnswerWins(key: LabelKey, earlier: Label, later: Label)
    ensures var es := [Look(0, key), Look(1, key), Put(0, key), Put(1, key)];
            var answers: Answers := (x, k) => if x == 0 then earlier else later;
            && IsRun(map[], es) && Raced(es)
            && StoreAt(map[], es, answers, 3) == map[key := earlier]
            && StoreAt(map[], es, answers, 4) == map[key := later]
  {
    var es := [Look(0, key), Look(1, key), Put(0, key), Put(1, key)];
    var answers: Answers := (x, k) => if x == 0 then earlier else later;
    assert At(map[], es, 0) == Shape({}, {});
    assert At(map[], es, 1) == Shape({}, {(0, key)});
    assert At(map[], es, 2) == Shape({}, {(0, key), (1, key)});
    assert At(map[], es, 3) == Shape({key}, {(1, key)});
    assert Races(es, 1, 2, 3);
    assert StoreAt(map[], es, answers, 1) == map[] && StoreAt(map[], es, answers, 2) == map[];
    assert StoreAt(map[], es, answers, 3) == map[key := earlier];
  }
}
