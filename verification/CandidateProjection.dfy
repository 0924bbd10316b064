/** The final top candidates: each group of merged items becomes one response, the responses are
    ranked, and the first `limit` of them are returned. */
module CandidateProjection {
  import opened Options
  import opened Order
  import opened CandidateIdentity
  import opened CandidateKeys
  import M = CandidateMerging

  /* ---------- Badges ---------- */

  const MULTIPLE := "Multiple sources"

  function AddBadges(result: seq<string>, badges: seq<string>): seq<string>
    decreases |badges|
  {
    if badges == [] then result
    else AddBadges(if badges[0] !in result && badges[0] != MULTIPLE then result + [badges[0]] else result, badges[1..])
  }

  function AllBadges(group: seq<Item>): seq<string> {
    if group == [] then [] else group[0].badges + AllBadges(group[1..])
  }

  function SourceKinds(group: seq<Item>): set<SourceKind> {
    set x, e | x in group && e in x.subject.evidence :: e.source
  }

  function Badges(group: seq<Item>): seq<string> {
    AddBadges([], AllBadges(group)) + if |SourceKinds(group)| > 1 then [MULTIPLE] else []
  }

  /** Each badge once, in order of appearance; the multiple-source badge only where more than one
      source contributed, whatever the items themselves claim. */
  lemma BadgesMeaning(group: seq<Item>)
    ensures var r := Badges(group);
            && (forall i, j :: 0 <= i < j < |r| ==> r[i] != r[j])
            && (forall b :: b != MULTIPLE ==> (b in r <==> exists x :: x in group && b in x.badges))
            && (MULTIPLE in r <==> |SourceKinds(group)| > 1)
  {
    AddBadgesMeaning([], AllBadges(group));
    forall b {
      AllBadgesIff(group, b);
    }
  }

  lemma {:induction false} AddBadgesMeaning(result: seq<string>, badges: seq<string>)
    requires M.Distinct(result) && MULTIPLE !in result
    ensures M.Distinct(AddBadges(result, badges)) && MULTIPLE !in AddBadges(result, badges)
    ensures forall b :: b != MULTIPLE ==> (b in AddBadges(result, badges) <==> b in result || b in badges)
    decreases |badges|
  {
    if badges != [] {
      var result' := if badges[0] !in result && badges[0] != MULTIPLE then result + [badges[0]] else result;
      AddBadgesMeaning(result', badges[1..]);
      assert forall b :: b in badges <==> b == badges[0] || b in badges[1..];
    }
  }

  lemma AllBadgesIff(group: seq<Item>, b: string)
    ensures b in AllBadges(group) <==> exists x :: x in group && b in x.badges
  {
    if group != [] {
      AllBadgesIff(group[1..], b);
      assert forall x :: x in group <==> x == group[0] || x in group[1..];
    }
  }

  lemma BadgesListed(group: seq<Item>)
    ensures ListsBadges(Badges(group), group)
  {
    BadgesMeaning(group);
    SourcesIff(group);
    AddBadgesMeaning([], AllBadges(group));
    BadgesInOrder(group);
    hide SourceKinds, AddBadges, FirstBefore;
  }

  ghost predicate From(group: seq<Item>, kind: SourceKind) {
    exists x, e :: x in group && e in x.subject.evidence && e.source == kind
  }

  lemma SourcesIff(group: seq<Item>)
    ensures |SourceKinds(group)| > 1 <==> From(group, Cts) && From(group, Liepin)
  {
    KindsFrom(group, Cts);
    KindsFrom(group, Liepin);
    BothKinds(SourceKinds(group));
    hide SourceKinds, From;
  }

  lemma KindsFrom(group: seq<Item>, kind: SourceKind)
    ensures kind in SourceKinds(group) <==> From(group, kind)
  {}

  lemma BothKinds(kinds: set<SourceKind>)
    ensures |kinds| > 1 <==> Cts in kinds && Liepin in kinds
  {
    assert kinds == (if Cts in kinds then {Cts} else {}) + if Liepin in kinds then {Liepin} else {} by {
      forall kind | kind in kinds
        ensures kind == Cts || kind == Liepin
      {}
    }
  }

  method MergedSourceBadges(group: seq<Item>) returns (result: seq<string>)
    ensures result == Badges(group)
  {
    result := [];
    for i := 0 to |group|
      invariant AddBadges(result, AllBadges(group[i..])) == AddBadges([], AllBadges(group))
    {
      assert group[i..][1..] == group[i + 1..];
      var badges := group[i].badges;
      for j := 0 to |badges|
        invariant AddBadges(result, badges[j..] + AllBadges(group[i + 1..])) == AddBadges([], AllBadges(group))
      {
        assert (badges[j..] + AllBadges(group[i + 1..]))[1..] == badges[j + 1..] + AllBadges(group[i + 1..]);
        if badges[j] !in result && badges[j] != MULTIPLE {
          result := result + [badges[j]];
        }
      }
      assert badges[|badges|..] + AllBadges(group[i + 1..]) == AllBadges(group[i + 1..]);
    }
    if |SourceKinds(group)| > 1 {
      result := result + [MULTIPLE];
    }
  }

  /* ---------- One group ---------- */

  function ReviewIds(group: seq<Item>): seq<string> {
    seq(|group|, i requires 0 <= i < |group| => group[i].subject.reviewId)
  }

  function OwnEvidence(x: Item): (r: seq<string>)
    ensures |r| == |x.subject.evidence| && forall i :: 0 <= i < |r| ==> r[i] == x.subject.evidence[i].id
  {
    seq(|x.subject.evidence|, i requires 0 <= i < |x.subject.evidence| => x.subject.evidence[i].id)
  }

  function EvidenceIds(group: seq<Item>): seq<string> {
    if group == [] then [] else OwnEvidence(group[0]) + EvidenceIds(group[1..])
  }

  function ProjectGroup(identity: string, group: seq<Item>): Response
    requires group != []
  {
    var canonical := Canonical(group);
    var best := Best(group);
    Response(canonical.subject.reviewId, identity, SortBy(ReviewIds(group), Codes, false), 0,
             best.score, best.fitBucket, canonical.level, Badges(group), EvidenceIds(group))
  }

  /** None of the group outscores it. */
  ghost predicate TopScore(group: seq<Item>, x: Item) {
    x in group && forall y :: y in group ==> !Outscores(y, x)
  }

  lemma TopScoreIff(group: seq<Item>, x: Item)
    ensures TopScore(group, x) <==> x in group && forall y :: y in group ==> Leq(ScoreKey(y), ScoreKey(x))
  {
    forall y
      ensures Outscores(y, x) <==> !Leq(ScoreKey(y), ScoreKey(x))
    {
      OutscoresIff(y, x);
    }
    hide Outscores, ScoreKey, Leq;
  }

  /** The item whose score and fit bucket the group shows. */
  function Best(group: seq<Item>): Item
    requires group != []
  {
    group[FirstMax(group, ScoreKey)]
  }

  lemma BestIsTop(group: seq<Item>)
    requires group != []
    ensures TopScore(group, Best(group))
  {
    TopScoreIff(group, Best(group));
    hide TopScore, ScoreKey;
    forall y | y in group
      ensures Leq(ScoreKey(y), ScoreKey(Best(group)))
    {
      var i :| 0 <= i < |group| && group[i] == y;
    }
  }

  /** All items that none outscores have one fit bucket. */
  ghost predicate OneBucket(group: seq<Item>) {
    forall x, y :: TopScore(group, x) && TopScore(group, y) ==> x.fitBucket == y.fitBucket
  }

  /** The ids of the evidence of the first `n` items, item by item. */
  ghost function EvidenceOf(group: seq<Item>, n: nat): seq<string>
    requires n <= |group|
  {
    if n == 0 then [] else EvidenceOf(group, n - 1) + OwnEvidence(group[n - 1])
  }

  lemma {:induction false} EvidenceSuffix(group: seq<Item>, n: nat)
    requires group != [] && n < |group|
    ensures EvidenceOf(group, n + 1) == OwnEvidence(group[0]) + EvidenceOf(group[1..], n)
  {
    hide OwnEvidence;
    if n > 0 {
      EvidenceSuffix(group, n - 1);
      assert group[1..][n - 1] == group[n];
    }
  }

  lemma {:induction false} EvidenceListed(group: seq<Item>)
    ensures EvidenceIds(group) == EvidenceOf(group, |group|)
  {
    if group != [] {
      EvidenceListed(group[1..]);
      EvidenceSuffix(group, |group| - 1);
    }
  }

  /** Each badge of the items once, in order of first appearance, and the multiple-source badge last,
      exactly when both sources contributed. */
  ghost predicate ListsBadges(badges: seq<string>, group: seq<Item>) {
    && M.Distinct(badges)
    && (forall b :: b in badges && b != "Multiple sources" <==>
          b != "Multiple sources" && exists x :: x in group && b in x.badges)
    && ("Multiple sources" in badges <==> From(group, Cts) && From(group, Liepin))
    && (forall i :: 0 <= i < |badges| - 1 ==> badges[i] != "Multiple sources")
    && forall i, j :: 0 <= i < j < |badges| && badges[j] != "Multiple sources" ==>
         FirstBefore(BadgesOf(group, |group|), badges[i], badges[j])
  }

  /** The one badge appears before the other does. */
  ghost predicate FirstBefore(all: seq<string>, a: string, b: string) {
    exists p: nat :: p < |all| && all[p] == a && b !in all[..p + 1]
  }

  /** The badges of the first `n` items, item by item. */
  ghost function BadgesOf(group: seq<Item>, n: nat): seq<string>
    requires n <= |group|
  {
    if n == 0 then [] else BadgesOf(group, n - 1) + group[n - 1].badges
  }

  lemma {:induction false} BadgesSuffix(group: seq<Item>, n: nat)
    requires group != [] && n < |group|
    ensures BadgesOf(group, n + 1) == group[0].badges + BadgesOf(group[1..], n)
  {
    if n > 0 {
      BadgesSuffix(group, n - 1);
      assert group[1..][n - 1] == group[n];
    }
  }

  lemma {:induction false} AllBadgesAre(group: seq<Item>)
    ensures AllBadges(group) == BadgesOf(group, |group|)
  {
    if group != [] {
      AllBadgesAre(group[1..]);
      BadgesSuffix(group, |group| - 1);
    }
  }

  ghost predicate OrderedAs(result: seq<string>, all: seq<string>) {
    && (forall b :: b in result ==> b in all)
    && forall i, j :: 0 <= i < j < |result| ==> FirstBefore(all, result[i], result[j])
  }

  lemma FirstBeforeGrows(all: seq<string>, more: seq<string>, a: string, b: string)
    requires FirstBefore(all, a, b)
    ensures FirstBefore(all + more, a, b)
  {
    var p: nat :| p < |all| && all[p] == a && b !in all[..p + 1];
    assert (all + more)[..p + 1] == all[..p + 1];
  }

  lemma StillOrdered(result: seq<string>, all: seq<string>, b: string)
    requires OrderedAs(result, all)
    ensures OrderedAs(result, all + [b])
  {
    forall i, j | 0 <= i < j < |result|
      ensures FirstBefore(all + [b], result[i], result[j])
    {
      FirstBeforeGrows(all, [b], result[i], result[j]);
    }
    hide FirstBefore;
  }

  lemma NewBehind(all: seq<string>, a: string, b: string)
    requires a in all && b !in all
    ensures FirstBefore(all + [b], a, b)
  {
    var p :| 0 <= p < |all| && all[p] == a;
    assert (all + [b])[..p + 1] == all[..p + 1];
    assert b !in all[..p + 1];
  }

  lemma OrderedWith(result: seq<string>, all: seq<string>, b: string)
    requires OrderedAs(result, all) && b !in all
    ensures OrderedAs(result + [b], all + [b])
  {
    StillOrdered(result, all, b);
    forall i | 0 <= i < |result|
      ensures FirstBefore(all + [b], result[i], b)
    {
      assert result[i] in result;
      NewBehind(all, result[i], b);
    }
    hide FirstBefore;
  }

  ghost predicate HasTaken(result: seq<string>, all: seq<string>) {
    forall b :: b in all && b != MULTIPLE ==> b in result
  }

  function WithBadge(result: seq<string>, b: string): seq<string> {
    if b !in result && b != MULTIPLE then result + [b] else result
  }

  lemma TakeOne(result: seq<string>, all: seq<string>, b: string)
    requires OrderedAs(result, all) && HasTaken(result, all)
    ensures OrderedAs(WithBadge(result, b), all + [b]) && HasTaken(WithBadge(result, b), all + [b])
  {
    if b !in result && b != MULTIPLE {
      OrderedWith(result, all, b);
    } else {
      StillOrdered(result, all, b);
    }
    hide OrderedAs;
    forall c | c in all + [b] && c != MULTIPLE
      ensures c in WithBadge(result, b)
    {
      assert c in all || c == b;
    }
  }

  lemma AddFirstBadge(result: seq<string>, badges: seq<string>)
    requires badges != []
    ensures AddBadges(result, badges) == AddBadges(WithBadge(result, badges[0]), badges[1..])
  {}

  /** `result` has taken all badges seen so far but the multiple-source one. */
  lemma {:induction false} AddBadgesOrder(result: seq<string>, all: seq<string>, badges: seq<string>)
    requires OrderedAs(result, all) && HasTaken(result, all)
    ensures OrderedAs(AddBadges(result, badges), all + badges)
    decreases |badges|
  {
    if badges == [] {
      assert all + badges == all;
    } else {
      TakeOne(result, all, badges[0]);
      AddFirstBadge(result, badges);
      hide OrderedAs, HasTaken, AddBadges, WithBadge;
      AddBadgesOrder(WithBadge(result, badges[0]), all + [badges[0]], badges[1..]);
      assert all + [badges[0]] + badges[1..] == all + badges;
    }
  }

  lemma BadgesInOrder(group: seq<Item>)
    ensures OrderedAs(AddBadges([], AllBadges(group)), BadgesOf(group, |group|))
  {
    AllBadgesAre(group);
    AddBadgesOrder([], [], AllBadges(group));
    assert [] + AllBadges(group) == AllBadges(group);
  }

  /** What a response says of its group: all review ids, sorted; the id and level of an item that no
      other beats; the score and fit bucket of one that no other outscores; all evidence and badges. */
  ghost predicate Describes(r: Response, group: seq<Item>) {
    && multiset(r.merged) == multiset(ReviewIds(group)) && Sorted(r.merged, Codes, false)
    && (exists x :: TopKey(group, x) && r.canonicalId == x.subject.reviewId && r.level == x.level)
    && (exists y :: TopScore(group, y) && y.score == r.score && y.fitBucket == r.fitBucket)
    && r.evidence == EvidenceOf(group, |group|) && ListsBadges(r.badges, group)
  }

  lemma ProjectDescribes(identity: string, group: seq<Item>)
    requires group != []
    ensures Describes(ProjectGroup(identity, group), group)
  {
    var r := ProjectGroup(identity, group);
    CanonicalIsTop(group);
    BestIsTop(group);
    assert r.canonicalId == Canonical(group).subject.reviewId && r.level == Canonical(group).level;
    assert r.score == Best(group).score && r.fitBucket == Best(group).fitBucket;
    assert multiset(r.merged) == multiset(ReviewIds(group)) && Sorted(r.merged, Codes, false) by {
      SortBySorts(ReviewIds(group), Codes, false);
    }
    EvidenceListed(group);
    BadgesListed(group);
    hide ProjectGroup, Canonical, Best, TopKey, TopScore, ReviewIds, Sorted, Codes, ListsBadges, EvidenceOf;
  }

  /** Of the items none beats, item `i` is the first. */
  ghost predicate FirstTop(group: seq<Item>, i: nat) {
    && i < |group| && (forall j :: 0 <= j < i ==> Beats(group[i], group[j]))
    && forall j :: i < j < |group| ==> !Beats(group[j], group[i])
  }

  /** Of the items none outscores, item `i` is the first. */
  ghost predicate FirstBest(group: seq<Item>, i: nat) {
    && i < |group| && (forall j :: 0 <= j < i ==> Outscores(group[i], group[j]))
    && forall j :: i < j < |group| ==> !Outscores(group[j], group[i])
  }

  lemma FirstMaxIsTop(group: seq<Item>)
    requires group != []
    ensures FirstTop(group, FirstMax(group, CanonicalKey))
  {
    var i := FirstMax(group, CanonicalKey);
    hide Beats, CanonicalKey, Leq, FirstMax;
    forall k | 0 <= k < |group|
      ensures !Beats(group[k], group[i]) && (k < i ==> Beats(group[i], group[k]))
    {
      BeatsIff(group[k], group[i]);
      BeatsIff(group[i], group[k]);
      NotBothWays(CanonicalKey(group[k]), CanonicalKey(group[i]));
    }
  }

  lemma FirstMaxIsBest(group: seq<Item>)
    requires group != []
    ensures FirstBest(group, FirstMax(group, ScoreKey))
  {
    var i := FirstMax(group, ScoreKey);
    hide Outscores, ScoreKey, Leq, FirstMax;
    forall k | 0 <= k < |group|
      ensures !Outscores(group[k], group[i]) && (k < i ==> Outscores(group[i], group[k]))
    {
      OutscoresIff(group[k], group[i]);
      OutscoresIff(group[i], group[k]);
      NotBothWays(ScoreKey(group[k]), ScoreKey(group[i]));
    }
  }

  /** Where several items would do, the response follows the first one of the group's list. */
  lemma ProjectFollowsFirst(identity: string, group: seq<Item>) returns (i: nat, j: nat)
    requires group != []
    ensures FirstTop(group, i) && FirstBest(group, j)
    ensures var r := ProjectGroup(identity, group);
            && r.canonicalId == group[i].subject.reviewId && r.level == group[i].level
            && r.score == group[j].score && r.fitBucket == group[j].fitBucket
  {
    i, j := FirstMax(group, CanonicalKey), FirstMax(group, ScoreKey);
    FirstMaxIsTop(group);
    FirstMaxIsBest(group);
    hide Beats, Outscores, CanonicalKey, ScoreKey, Leq, FirstMax, FirstTop, FirstBest;
  }

  lemma NotBothWays(a: seq<int>, b: seq<int>)
    requires Leq(a, b)
    ensures a != b ==> !Leq(b, a)
  {
    if Leq(b, a) {
      LeqAntisymmetric(a, b);
    }
  }

  /** None of the group beats it. */
  ghost predicate TopKey(group: seq<Item>, x: Item) {
    x in group && forall y :: y in group ==> !Beats(y, x)
  }

  lemma TopKeyIff(group: seq<Item>, x: Item)
    ensures TopKey(group, x) <==> x in group && forall y :: y in group ==> Leq(CanonicalKey(y), CanonicalKey(x))
  {
    forall y
      ensures Beats(y, x) <==> !Leq(CanonicalKey(y), CanonicalKey(x))
    {
      BeatsIff(y, x);
    }
    hide Beats, CanonicalKey, Leq;
  }

  function Canonical(group: seq<Item>): Item
    requires group != []
  {
    group[FirstMax(group, CanonicalKey)]
  }

  lemma CanonicalIsTop(group: seq<Item>)
    requires group != []
    ensures TopKey(group, Canonical(group))
  {
    TopKeyIff(group, Canonical(group));
    hide TopKey, CanonicalKey;
    forall y | y in group
      ensures Leq(CanonicalKey(y), CanonicalKey(Canonical(group)))
    {
      var i :| 0 <= i < |group| && group[i] == y;
    }
  }

  lemma TopKeyReordered(group: seq<Item>, other: seq<Item>, x: Item)
    requires multiset(other) == multiset(group) && TopKey(other, x)
    ensures TopKey(group, x)
  {
    hide Beats;
    assert x in multiset(other);
    forall y | y in group
      ensures !Beats(y, x)
    {
      assert y in multiset(group);
      assert y in other;
    }
  }

  ghost predicate OrderFree(group: seq<Item>)
    requires group != []
  {
    forall other: seq<Item> :: other != [] && multiset(other) == multiset(group) ==>
      Canonical(other) == Canonical(group)
  }

  ghost predicate NoTie(group: seq<Item>) {
    forall x, y :: TopKey(group, x) && TopKey(group, y) ==> x == y
  }

  /** The canonical item does not depend on the order of a group exactly when no two different
      items tie for the greatest canonical key. */
  lemma CanonicalOrderFreeIff(group: seq<Item>)
    requires group != []
    ensures OrderFree(group) <==> NoTie(group)
  {
    CanonicalIsTop(group);
    if NoTie(group) {
      forall other: seq<Item> | other != [] && multiset(other) == multiset(group)
        ensures Canonical(other) == Canonical(group)
      {
        CanonicalIsTop(other);
        TopKeyReordered(group, other, Canonical(other));
      }
    } else {
      var x :| TopKey(group, x) && x != Canonical(group);
      MovedToFront(group, x);
    }
  }

  lemma MovedToFront(group: seq<Item>, x: Item)
    requires TopKey(group, x) && x != Canonical(group)
    ensures !OrderFree(group)
  {
    hide CanonicalKey, OrderFree;
    var i :| 0 <= i < |group| && group[i] == x;
    var other := [x] + (group[..i] + group[i + 1..]);
    assert group == group[..i] + [x] + group[i + 1..];
    assert multiset(other) == multiset(group);
    FirstWins(other, group, x);
    OtherOrder(group, other);
  }

  lemma OtherOrder(group: seq<Item>, other: seq<Item>)
    requires group != [] && other != [] && multiset(other) == multiset(group) && Canonical(other) != Canonical(group)
    ensures !OrderFree(group)
  {}

  lemma FirstWins(other: seq<Item>, group: seq<Item>, x: Item)
    requires other != [] && other[0] == x && multiset(other) == multiset(group) && TopKey(group, x)
    ensures Canonical(other) == x
  {
    TopKeyIff(group, x);
    TopKeyIff(other, other[FirstMax(other, CanonicalKey)]);
    hide CanonicalKey, TopKey;
    var m := FirstMax(other, CanonicalKey);
    assert Leq(CanonicalKey(other[0]), CanonicalKey(other[m]));
    CanonicalIsTop(other);
    TopKeyReordered(group, other, other[m]);
    LeqAntisymmetric(CanonicalKey(other[m]), CanonicalKey(x));
    assert m == 0;
  }

  /* ---------- The ranking ---------- */

  function AllKeys(items: seq<Item>): (r: seq<seq<string>>)
    ensures |r| == |items| && forall i :: 0 <= i < |r| ==> r[i] == Keys(items[i].subject)
  {
    seq(|items|, i requires 0 <= i < |items| => Keys(items[i].subject))
  }

  function Members(items: seq<Item>, group: seq<nat>): (r: seq<Item>)
    requires forall x :: 0 <= x < |group| ==> group[x] < |items|
    ensures |r| == |group| && forall x :: 0 <= x < |r| ==> r[x] == items[group[x]]
  {
    seq(|group|, x requires 0 <= x < |group| => items[group[x]])
  }

  ghost predicate Grouped(items: seq<Item>, groups: M.Groups) {
    M.Components(AllKeys(items), groups)
  }

  /** Every group is nonempty and within the items. */
  predicate Usable(items: seq<Item>, groups: M.Groups) {
    forall g :: g in groups ==> groups[g] != [] && forall x :: 0 <= x < |groups[g]| ==> groups[g][x] < |items|
  }

  function Project(items: seq<Item>, groups: M.Groups, g: string): (r: Response)
    requires Usable(items, groups) && g in groups
    ensures r.identity == g
  {
    ProjectGroup(g, Members(items, groups[g]))
  }

  /** Python's `s[:limit]`: a negative limit drops from the end. */
  function Prefix<T>(s: seq<T>, limit: int): seq<T> {
    if limit >= |s| then s
    else if limit >= 0 then s[..limit]
    else if -limit >= |s| then [] else s[..|s| + limit]
  }

  function Numbered(ranked: seq<Response>): seq<Response> {
    seq(|ranked|, k requires 0 <= k < |ranked| => ranked[k].(rank := k + 1))
  }

  /** `ranked` lists every group's response exactly once, best first. */
  ghost predicate Ranks(items: seq<Item>, groups: M.Groups, ranked: seq<Response>)
    requires Usable(items, groups)
  {
    && (forall k :: 0 <= k < |ranked| ==> Entry(items, groups, ranked[k]))
    && (forall g :: g in groups ==> Listed(ranked, g))
    && (forall j, k :: 0 <= j < k < |ranked| ==> ranked[j].identity != ranked[k].identity)
    && Sorted(ranked, RankKey, true)
  }

  ghost predicate Entry(items: seq<Item>, groups: M.Groups, r: Response)
    requires Usable(items, groups)
  {
    r.identity in groups && r == Project(items, groups, r.identity)
  }

  ghost predicate Listed(ranked: seq<Response>, g: string) {
    exists k :: 0 <= k < |ranked| && ranked[k].identity == g
  }

  /** The item that started a group. */
  function Birth(groups: M.Groups, g: string): int {
    if g in groups && groups[g] != [] then groups[g][0] else -1
  }

  ghost predicate ByBirth(groups: M.Groups, order: seq<string>) {
    forall i, j :: 0 <= i < j < |order| ==> Birth(groups, order[i]) < Birth(groups, order[j])
  }

  /** Some group is the oldest of a nonempty set of them. */
  lemma {:induction false} Oldest(groups: M.Groups, names: set<string>) returns (g: string)
    requires names != {}
    ensures g in names && forall h :: h in names ==> Birth(groups, g) <= Birth(groups, h)
    decreases |names|
  {
    g :| g in names;
    var rest := names - {g};
    if rest != {} {
      var h := Oldest(groups, rest);
      g := if Birth(groups, h) < Birth(groups, g) then h else g;
    }
  }

  /** The groups as the dict lists them: in the order in which they were started. */
  method GroupOrder(groups: M.Groups) returns (order: seq<string>)
    requires forall g, h :: g in groups && h in groups && g != h ==> Birth(groups, g) != Birth(groups, h)
    ensures M.Distinct(order) && ByBirth(groups, order) && forall g :: g in order <==> g in groups
  {
    hide Birth;
    order := [];
    var todo := groups.Keys;
    while todo != {}
      invariant todo <= groups.Keys && M.Distinct(order) && ByBirth(groups, order)
      invariant forall g :: g in order <==> g in groups && g !in todo
      invariant forall g, h :: g in order && h in todo ==> Birth(groups, g) < Birth(groups, h)
      decreases |todo|
    {
      ghost var oldest := Oldest(groups, todo);
      var g :| g in todo && forall h :: h in todo ==> Birth(groups, g) <= Birth(groups, h);
      todo := todo - {g};
      order := order + [g];
    }
  }

  /** Sorting keeps every group's response and lists none twice. */
  lemma SortRanks(items: seq<Item>, groups: M.Groups, order: seq<string>, projected: seq<Response>)
    requires Usable(items, groups)
    requires M.Distinct(order) && forall g :: g in order <==> g in groups
    requires |projected| == |order|
    requires forall k :: 0 <= k < |order| ==> projected[k] == Project(items, groups, order[k])
    ensures Ranks(items, groups, SortBy(projected, RankKey, true))
  {
    hide *;
    SortBySorts(projected, RankKey, true);
    SameElements(projected, SortBy(projected, RankKey, true));
    EveryEntry(items, groups, order, projected, SortBy(projected, RankKey, true));
    EveryGroupListed(items, groups, order, projected, SortBy(projected, RankKey, true));
    NoneTwice(items, groups, order, projected, SortBy(projected, RankKey, true));
    RanksIntro(items, groups, SortBy(projected, RankKey, true));
  }

  lemma RanksIntro(items: seq<Item>, groups: M.Groups, ranked: seq<Response>)
    requires Usable(items, groups)
    requires forall k :: 0 <= k < |ranked| ==> Entry(items, groups, ranked[k])
    requires forall g :: g in groups ==> Listed(ranked, g)
    requires forall j, k :: 0 <= j < k < |ranked| ==> ranked[j].identity != ranked[k].identity
    requires Sorted(ranked, RankKey, true)
    ensures Ranks(items, groups, ranked)
  {
    hide Entry, Listed, Sorted, Usable;
  }

  lemma EveryEntry(items: seq<Item>, groups: M.Groups, order: seq<string>, projected: seq<Response>,
                   ranked: seq<Response>)
    requires Usable(items, groups) && forall g :: g in order <==> g in groups
    requires |projected| == |order|
    requires forall k :: 0 <= k < |order| ==> projected[k] == Project(items, groups, order[k])
    requires forall r :: r in projected <==> r in ranked
    ensures forall k :: 0 <= k < |ranked| ==> Entry(items, groups, ranked[k])
  {
    hide Usable, Project;
    forall k | 0 <= k < |ranked|
      ensures Entry(items, groups, ranked[k])
    {
      assert ranked[k] in projected;
      var i :| 0 <= i < |projected| && projected[i] == ranked[k];
    }
  }

  lemma NoneTwice(items: seq<Item>, groups: M.Groups, order: seq<string>, projected: seq<Response>,
                  ranked: seq<Response>)
    requires Usable(items, groups) && M.Distinct(order) && forall g :: g in order <==> g in groups
    requires |projected| == |order| && multiset(projected) == multiset(ranked)
    requires forall k :: 0 <= k < |order| ==> projected[k] == Project(items, groups, order[k])
    requires forall k :: 0 <= k < |ranked| ==> Entry(items, groups, ranked[k])
    ensures forall j, k :: 0 <= j < k < |ranked| ==> ranked[j].identity != ranked[k].identity
  {
    hide Usable, Project;
    assert forall k :: 0 <= k < |order| ==> projected[k].identity == order[k];
    StillDistinct(projected, ranked);
    forall j, k | 0 <= j < k < |ranked|
      ensures ranked[j].identity != ranked[k].identity
    {
      assert Entry(items, groups, ranked[j]) && Entry(items, groups, ranked[k]);
    }
  }

  lemma EveryGroupListed(items: seq<Item>, groups: M.Groups, order: seq<string>, projected: seq<Response>,
                         ranked: seq<Response>)
    requires Usable(items, groups) && forall g :: g in order <==> g in groups
    requires |projected| == |order|
    requires forall k :: 0 <= k < |order| ==> projected[k] == Project(items, groups, order[k])
    requires forall r :: r in projected <==> r in ranked
    ensures forall g :: g in groups ==> Listed(ranked, g)
  {
    hide Usable, Project;
    forall g | g in groups
      ensures Listed(ranked, g)
    {
      var i :| 0 <= i < |order| && order[i] == g;
      assert projected[i] in ranked;
    }
  }

  lemma StillDistinct<T>(s: seq<T>, t: seq<T>)
    requires multiset(s) == multiset(t) && forall i, j :: 0 <= i < j < |s| ==> s[i] != s[j]
    ensures forall i, j :: 0 <= i < j < |t| ==> t[i] != t[j]
  {
    forall i, j | 0 <= i < j < |t|
      ensures t[i] != t[j]
    {
      OnceInMultiset(s, t[i]);
      if t[i] == t[j] {
        TwiceInMultiset(t, i, j);
      }
    }
  }

  lemma SameElements<T>(s: seq<T>, t: seq<T>)
    requires multiset(s) == multiset(t)
    ensures forall x :: x in s <==> x in t
  {
    forall x
      ensures x in s <==> x in t
    {
      assert x in s <==> x in multiset(s);
      assert x in t <==> x in multiset(t);
    }
  }

  lemma TwiceInMultiset<T>(s: seq<T>, j: nat, k: nat)
    requires j < k < |s| && s[j] == s[k]
    ensures multiset(s)[s[j]] >= 2
  {
    assert s == s[..k] + [s[k]] + s[k + 1..];
    assert s[..k][j] == s[j];
  }

  lemma OnceInMultiset<T>(s: seq<T>, x: T)
    requires forall i, j :: 0 <= i < j < |s| ==> s[i] != s[j]
    ensures multiset(s)[x] <= 1
  {
    if s != [] {
      var n := |s| - 1;
      OnceInMultiset(s[..n], x);
      assert s == s[..n] + [s[n]];
    }
  }

  method ProjectAll(items: seq<Item>, groups: M.Groups, order: seq<string>) returns (projected: seq<Response>)
    requires Usable(items, groups) && forall g :: g in order ==> g in groups
    ensures |projected| == |order|
    ensures forall k :: 0 <= k < |order| ==> projected[k] == Project(items, groups, order[k])
  {
    hide Usable, Project;
    projected := [];
    for i := 0 to |order|
      invariant |projected| == i
      invariant forall k :: 0 <= k < i ==> projected[k] == Project(items, groups, order[k])
    {
      projected := projected + [Project(items, groups, order[i])];
    }
  }

  /** Of two responses neither of which outranks the other, that of the older group stands first. */
  ghost predicate TiesByBirth(groups: M.Groups, ranked: seq<Response>) {
    forall j, k :: 0 <= j < k < |ranked| && !Outranks(ranked[j], ranked[k]) && !Outranks(ranked[k], ranked[j]) ==>
      Birth(groups, ranked[j].identity) < Birth(groups, ranked[k].identity)
  }

  lemma BirthsDiffer(items: seq<Item>, groups: M.Groups)
    requires Grouped(items, groups)
    ensures forall g, h :: g in groups && h in groups && g != h ==> Birth(groups, g) != Birth(groups, h)
  {
    forall g, h | g in groups && h in groups && Birth(groups, g) == Birth(groups, h)
      ensures g == h
    {
      M.ConnectedSelf(AllKeys(items), groups[g][0]);
    }
  }

  lemma ProjectNamed(items: seq<Item>, groups: M.Groups, g: string)
    requires Usable(items, groups) && g in groups
    ensures Project(items, groups, g).identity == g
  {
    hide Usable;
  }

  lemma SortKeepsTies(items: seq<Item>, groups: M.Groups, order: seq<string>, projected: seq<Response>)
    requires Usable(items, groups) && ByBirth(groups, order)
    requires |projected| == |order| && forall g :: g in order ==> g in groups
    requires forall k :: 0 <= k < |order| ==> projected[k] == Project(items, groups, order[k])
    ensures TiesByBirth(groups, SortBy(projected, RankKey, true))
  {
    hide Usable, Project, Birth, SortBy;
    forall k | 0 <= k < |order|
      ensures projected[k].identity == order[k]
    {
      ProjectNamed(items, groups, order[k]);
    }
    SortTies(groups, projected);
  }

  lemma SortTies(groups: M.Groups, projected: seq<Response>)
    requires forall i, j :: 0 <= i < j < |projected| ==>
               Birth(groups, projected[i].identity) < Birth(groups, projected[j].identity)
    ensures TiesByBirth(groups, SortBy(projected, RankKey, true))
  {
    var birth := (r: Response) => Birth(groups, r.identity);
    var ranked := SortBy(projected, RankKey, true);
    hide RankKey, Outranks, Birth, SortBy, Leq;
    SortStable(projected, RankKey, true, birth);
    forall j, k | 0 <= j < k < |ranked| && !Outranks(ranked[j], ranked[k]) && !Outranks(ranked[k], ranked[j])
      ensures Birth(groups, ranked[j].identity) < Birth(groups, ranked[k].identity)
    {
      SameKey(ranked[j], ranked[k]);
      assert birth(ranked[j]) < birth(ranked[k]);
    }
  }

  lemma SameKey(r: Response, r': Response)
    requires !Outranks(r, r') && !Outranks(r', r)
    ensures RankKey(r) == RankKey(r')
  {
    hide Outranks, RankKey, Leq;
    OutranksIff(r, r');
    OutranksIff(r', r);
    LeqAntisymmetric(RankKey(r), RankKey(r'));
  }

  method ProjectFinalTopCandidates(items: seq<Item>, limit: int)
      returns (out: seq<Response>, groups: M.Groups, ranked: seq<Response>)
    ensures Grouped(items, groups) && Usable(items, groups) && Ranks(items, groups, ranked)
    ensures groups == M.MergeOf(AllKeys(items), |items|).0
    ensures out == Numbered(Prefix(ranked, limit)) && TiesByBirth(groups, ranked)
  {
    hide M.Components, Ranks, Project, Usable, RankKey, Numbered, Prefix, TiesByBirth, Birth, ByBirth;
    var keyToGroup;
    groups, keyToGroup := M.MergeAll(AllKeys(items));
    GroupedIsUsable(items, groups);
    BirthsDiffer(items, groups);
    var order := GroupOrder(groups);
    var projected := ProjectAll(items, groups, order);
    SortRanks(items, groups, order, projected);
    SortKeepsTies(items, groups, order, projected);
    ranked := SortBy(projected, RankKey, true);
    out := Numbered(Prefix(ranked, limit));
  }

  lemma GroupedIsUsable(items: seq<Item>, groups: M.Groups)
    requires Grouped(items, groups)
    ensures Usable(items, groups)
  {}

  /* ---------- What the result means ---------- */

  ghost predicate DistinctReviews(items: seq<Item>) {
    forall i, j :: 0 <= i < j < |items| ==> items[i].subject.reviewId != items[j].subject.reviewId
  }

  /** The response at place k speaks for exactly the items of its group. */
  lemma RankedDescribes(items: seq<Item>, groups: M.Groups, ranked: seq<Response>, k: nat)
    requires Usable(items, groups) && Ranks(items, groups, ranked) && k < |ranked|
    ensures ranked[k].identity in groups && Describes(ranked[k], Members(items, groups[ranked[k].identity]))
  {
    hide Describes;
    assert Entry(items, groups, ranked[k]);
    ProjectDescribes(ranked[k].identity, Members(items, groups[ranked[k].identity]));
  }

  lemma MergedIff(items: seq<Item>, groups: M.Groups, ranked: seq<Response>, k: nat, i: nat)
    requires DistinctReviews(items) && Usable(items, groups) && Ranks(items, groups, ranked)
    requires k < |ranked| && i < |items|
    ensures ranked[k].identity in groups
    ensures items[i].subject.reviewId in ranked[k].merged <==> i in groups[ranked[k].identity]
  {
    RankedDescribes(items, groups, ranked, k);
    hide Ranks;
    IdsIff(items, groups[ranked[k].identity], i);
    SameElements(ranked[k].merged, ReviewIds(Members(items, groups[ranked[k].identity])));
  }

  lemma IdsIff(items: seq<Item>, group: seq<nat>, i: nat)
    requires DistinctReviews(items) && i < |items| && forall x :: 0 <= x < |group| ==> group[x] < |items|
    ensures items[i].subject.reviewId in ReviewIds(Members(items, group)) <==> i in group
  {
    var members := Members(items, group);
    if i in group {
      var x :| 0 <= x < |group| && group[x] == i;
      assert ReviewIds(members)[x] == items[i].subject.reviewId;
    }
    if items[i].subject.reviewId in ReviewIds(members) {
      var x :| 0 <= x < |members| && ReviewIds(members)[x] == items[i].subject.reviewId;
      assert group[x] == i;
    }
  }

  /** Conservation: with every group returned, each item's review id is merged into exactly one
      response, and two items are merged together exactly when a chain of shared keys connects
      them. */
  lemma ProjectionConserves(items: seq<Item>, groups: M.Groups, ranked: seq<Response>, i: nat, j: nat)
    requires DistinctReviews(items) && Grouped(items, groups) && Usable(items, groups) && Ranks(items, groups, ranked)
    requires i < |items| && j < |items|
    ensures exists k :: 0 <= k < |ranked| && items[i].subject.reviewId in ranked[k].merged
    ensures forall k, l :: MergedAt(items, ranked, i, k) && MergedAt(items, ranked, j, l) ==>
              (k == l <==> M.Connected(AllKeys(items), i, j))
  {
    var at := FindGroup(items, groups, ranked, i);
    forall k, l | MergedAt(items, ranked, i, k) && MergedAt(items, ranked, j, l)
      ensures k == l <==> M.Connected(AllKeys(items), i, j)
    {
      MergedIff(items, groups, ranked, k, i);
      MergedIff(items, groups, ranked, l, j);
      TogetherIff(items, groups, ranked[k].identity, ranked[l].identity, i, j);
      assert k != l ==> ranked[k].identity != ranked[l].identity;
    }
  }

  /** Item i's review id is among those merged into the response at place k. */
  ghost predicate MergedAt(items: seq<Item>, ranked: seq<Response>, i: nat, k: int) {
    0 <= k < |ranked| && i < |items| && items[i].subject.reviewId in ranked[k].merged
  }

  lemma FindGroup(items: seq<Item>, groups: M.Groups, ranked: seq<Response>, i: nat) returns (k: nat)
    requires DistinctReviews(items) && Grouped(items, groups) && Usable(items, groups) && Ranks(items, groups, ranked)
    requires i < |items|
    ensures k < |ranked| && items[i].subject.reviewId in ranked[k].merged
  {
    assert M.InSome(groups, i);
    var g :| g in groups && i in groups[g];
    assert Listed(ranked, g);
    k :| 0 <= k < |ranked| && ranked[k].identity == g;
    MergedIff(items, groups, ranked, k, i);
  }

  lemma TogetherIff(items: seq<Item>, groups: M.Groups, g: string, h: string, i: nat, j: nat)
    requires Grouped(items, groups) && g in groups && h in groups && i in groups[g] && j in groups[h]
    ensures g == h <==> M.Connected(AllKeys(items), i, j)
  {
    var x :| 0 <= x < |groups[g]| && groups[g][x] == i;
    var y :| 0 <= y < |groups[h]| && groups[h][y] == j;
  }

  /** What is returned is the front of the ranking, numbered 1, 2, ... */
  lemma OutputIsFront(ranked: seq<Response>, limit: int)
    ensures var out := Numbered(Prefix(ranked, limit));
            && |out| <= |ranked|
            && (0 <= limit ==> |out| == if limit <= |ranked| then limit else |ranked|)
            && (limit < 0 ==> |out| == if -limit <= |ranked| then |ranked| + limit else 0)
            && (forall k :: 0 <= k < |out| ==> out[k].rank == k + 1 && out[k] == ranked[k].(rank := k + 1))
  {}

  /** No response further down the ranking, returned or not, outranks one further up. */
  lemma NoneOutranked(items: seq<Item>, groups: M.Groups, ranked: seq<Response>, k: nat, l: nat)
    requires Usable(items, groups) && Ranks(items, groups, ranked) && k < l < |ranked|
    ensures !Outranks(ranked[l], ranked[k]) && !HigherScore(ranked[l].score, ranked[k].score)
  {
    assert Sorted(ranked, RankKey, true) by {
      hide Entry, Listed, Usable, Sorted;
    }
    hide Ranks, Usable, RankKey, Leq;
    assert Before(ranked[k], ranked[l], RankKey, true);
    OutranksIff(ranked[l], ranked[k]);
  }

  /** Reordering the input changes neither what is merged with what nor any group's score: every
      response of one run has a response of the other with the same list of merged ids and the same
      score, where no two items of the group tie for canonical also with the same canonical item and
      level, and where its best items agree on the fit bucket also with the same bucket. */
  lemma OrderInsensitive(items: seq<Item>, order: seq<nat>, groups: M.Groups, ranked: seq<Response>,
                         groups': M.Groups, ranked': seq<Response>, k: nat) returns (l: nat)
    requires |order| == |items| && M.Permutation(order)
    requires DistinctReviews(items)
    requires Grouped(items, groups) && Usable(items, groups) && Ranks(items, groups, ranked)
    requires var items' := Reordered(items, order);
             Grouped(items', groups') && Usable(items', groups') && Ranks(items', groups', ranked')
    requires k < |ranked'|
    ensures l < |ranked| && Effective(ranked[l].score) == Effective(ranked'[k].score)
    ensures ranked[l].merged == ranked'[k].merged
    ensures ranked[l].identity in groups
    ensures NoTie(Members(items, groups[ranked[l].identity])) ==>
              ranked[l].canonicalId == ranked'[k].canonicalId && ranked[l].level == ranked'[k].level
    ensures OneBucket(Members(items, groups[ranked[l].identity])) ==> ranked[l].fitBucket == ranked'[k].fitBucket
  {
    hide NoTie, OneBucket, Describes, Project, Effective, ReviewIds, Sorted, RankKey;
    var items' := Reordered(items, order);
    assert AllKeys(items') == M.Permuted(AllKeys(items), order);
    var g := ranked'[k].identity;
    var h := M.GroupsPermuted(AllKeys(items), order, groups, groups', g);
    assert Listed(ranked, h);
    l :| 0 <= l < |ranked| && ranked[l].identity == h;
    RankedDescribes(items, groups, ranked, l);
    RankedDescribes(items', groups', ranked', k);
    SameMembers(items, order, groups[h], groups'[g]);
    DistinctIds(items, groups, h);
    ReorderedDistinct(items, order);
    DistinctIds(items', groups', g);
    hide Ranks, M.Components;
    SameDescription(ranked[l], ranked'[k], Members(items, groups[h]), Members(items', groups'[g]));
  }

  lemma ReorderedDistinct(items: seq<Item>, order: seq<nat>)
    requires |order| == |items| && M.Permutation(order) && DistinctReviews(items)
    ensures DistinctReviews(Reordered(items, order))
  {
    forall i, j | 0 <= i < j < |order|
      ensures items[order[i]].subject.reviewId != items[order[j]].subject.reviewId
    {
      assert order[i] != order[j];
      if order[i] < order[j] {
        assert items[order[i]].subject.reviewId != items[order[j]].subject.reviewId;
      } else {
        assert items[order[j]].subject.reviewId != items[order[i]].subject.reviewId;
      }
    }
  }

  lemma DistinctIds(items: seq<Item>, groups: M.Groups, g: string)
    requires DistinctReviews(items) && Grouped(items, groups) && Usable(items, groups) && g in groups
    ensures M.Distinct(ReviewIds(Members(items, groups[g])))
  {
    var group := groups[g];
    assert M.Distinct(group);
    forall x, y | 0 <= x < y < |group|
      ensures items[group[x]].subject.reviewId != items[group[y]].subject.reviewId
    {
      if group[x] < group[y] {
        assert items[group[x]].subject.reviewId != items[group[y]].subject.reviewId;
      } else {
        assert items[group[y]].subject.reviewId != items[group[x]].subject.reviewId;
      }
    }
  }

  lemma SameDescription(r: Response, r': Response, a: seq<Item>, b: seq<Item>)
    requires Describes(r, a) && Describes(r', b) && forall x :: x in a <==> x in b
    requires M.Distinct(ReviewIds(a)) && M.Distinct(ReviewIds(b))
    ensures Effective(r.score) == Effective(r'.score)
    ensures r.merged == r'.merged
    ensures NoTie(a) ==> r.canonicalId == r'.canonicalId && r.level == r'.level
    ensures OneBucket(a) ==> r.fitBucket == r'.fitBucket
  {
    SameIds(a, b);
    DistinctPermutes(ReviewIds(a), ReviewIds(b));
    assert r.merged == r'.merged by {
      hide ReviewIds, TopScore, NoTie, OneBucket, TopKey, ListsBadges, EvidenceOf;
      SortedUniquely(r.merged, r'.merged);
    }
    SameShown(r, r', a, b);
    SameShown(r', r, b, a);
    EqualScores(r.score, r'.score);
    SameBucket(r, r', a, b);
    hide Describes, NoTie, OneBucket, ReviewIds, Effective;
  }

  lemma SameShown(r: Response, r': Response, a: seq<Item>, b: seq<Item>)
    requires Describes(r, a) && Describes(r', b) && forall x :: x in a <==> x in b
    ensures !HigherScore(r.score, r'.score)
    ensures NoTie(a) ==> r.canonicalId == r'.canonicalId && r.level == r'.level
  {
    hide Beats, Sorted, ReviewIds, HigherScore;
    var x :| TopKey(a, x) && r.canonicalId == x.subject.reviewId && r.level == x.level;
    var x' :| TopKey(b, x') && r'.canonicalId == x'.subject.reviewId && r'.level == x'.level;
    assert TopKey(a, x');
    hide Outscores;
    var y :| TopScore(a, y) && y.score == r.score && y.fitBucket == r.fitBucket;
    var y' :| TopScore(b, y') && y'.score == r'.score && y'.fitBucket == r'.fitBucket;
    assert !Outscores(y, y');
    ScoreDecides(y, y');
  }

  lemma ScoreDecides(x: Item, y: Item)
    ensures !Outscores(x, y) ==> !HigherScore(x.score, y.score)
  {}

  lemma EqualScores(a: Option<int>, b: Option<int>)
    requires !HigherScore(a, b) && !HigherScore(b, a)
    ensures Effective(a) == Effective(b)
  {}

  lemma SameBucket(r: Response, r': Response, a: seq<Item>, b: seq<Item>)
    requires Describes(r, a) && Describes(r', b) && forall x :: x in a <==> x in b
    ensures OneBucket(a) ==> r.fitBucket == r'.fitBucket
  {
    hide Outscores, TopKey, Sorted, ListsBadges, EvidenceOf;
    var y :| TopScore(a, y) && y.score == r.score && y.fitBucket == r.fitBucket;
    var y' :| TopScore(b, y') && y'.score == r'.score && y'.fitBucket == r'.fitBucket;
    assert TopScore(a, y');
  }

  /** Two lists without repetition and with the same elements are permutations of each other. */
  lemma {:induction false} DistinctPermutes<T>(s: seq<T>, t: seq<T>)
    requires M.Distinct(s) && M.Distinct(t) && forall x :: x in s <==> x in t
    ensures multiset(s) == multiset(t)
  {
    forall x
      ensures multiset(s)[x] == multiset(t)[x]
    {
      OnceInMultiset(s, x);
      OnceInMultiset(t, x);
      assert x in s <==> x in multiset(s);
      assert x in t <==> x in multiset(t);
    }
  }

  function Reordered(items: seq<Item>, order: seq<nat>): (r: seq<Item>)
    requires |order| == |items| && forall x :: 0 <= x < |order| ==> order[x] < |items|
    ensures |r| == |items|
  {
    seq(|order|, x requires 0 <= x < |order| => items[order[x]])
  }

  lemma SameMembers(items: seq<Item>, order: seq<nat>, group: seq<nat>, group': seq<nat>)
    requires |order| == |items| && M.Permutation(order)
    requires forall x :: 0 <= x < |group| ==> group[x] < |items|
    requires forall x :: 0 <= x < |group'| ==> group'[x] < |items|
    requires forall i :: 0 <= i < |order| ==> (i in group' <==> order[i] in group)
    ensures forall x :: x in Members(items, group) <==> x in Members(Reordered(items, order), group')
  {
    var a, b := Members(items, group), Members(Reordered(items, order), group');
    forall x | x in a
      ensures x in b
    {
      var y :| 0 <= y < |a| && a[y] == x;
      M.Covers(order, group[y]);
      var i :| 0 <= i < |order| && order[i] == group[y];
      var z :| 0 <= z < |group'| && group'[z] == i;
      assert b[z] == x;
    }
    forall x | x in b
      ensures x in a
    {
      var z :| 0 <= z < |b| && b[z] == x;
      assert group'[z] in group';
      var y :| 0 <= y < |group| && group[y] == order[group'[z]];
      assert a[y] == x;
    }
  }

  lemma SameIds(a: seq<Item>, b: seq<Item>)
    requires forall x :: x in a <==> x in b
    ensures forall id :: id in ReviewIds(a) <==> id in ReviewIds(b)
  {
    forall id | id in ReviewIds(a)
      ensures id in ReviewIds(b)
    {
      IdOf(a, b, id);
    }
    forall id | id in ReviewIds(b)
      ensures id in ReviewIds(a)
    {
      IdOf(b, a, id);
    }
  }

  lemma IdOf(a: seq<Item>, b: seq<Item>, id: string)
    requires id in ReviewIds(a) && forall x :: x in a ==> x in b
    ensures id in ReviewIds(b)
  {
    var i :| 0 <= i < |a| && ReviewIds(a)[i] == id;
    assert a[i] in b;
    var j :| 0 <= j < |b| && b[j] == a[i];
    assert ReviewIds(b)[j] == id;
  }
}
