/** The whole ranking and the order of the input: when every order gives the same ranking. */
module CandidateRanking {
  import opened Order
  import opened CandidateKeys
  import opened CandidateProjection
  import opened CandidateOrder
  import M = CandidateMerging

  /** What a response shows of its group. */
  datatype Face = Face(canonicalId: string, merged: seq<string>, score: int, level: Level, fitBucket: string)

  function FaceOf(r: Response): Face {
    Face(r.canonicalId, r.merged, Effective(r.score), r.level, r.fitBucket)
  }

  function Faces(ranked: seq<Response>): seq<Face> {
    seq(|ranked|, k requires 0 <= k < |ranked| => FaceOf(ranked[k]))
  }

  function FaceKey(f: Face): seq<int> {
    [f.score, LevelRank(f.level)] + Codes(f.canonicalId)
  }

  ghost predicate RankingOf(items: seq<Item>, ranked: seq<Response>) {
    Ranks(items, GroupsOf(items), ranked)
  }

  ghost predicate Reorders(items: seq<Item>, order: seq<nat>) {
    |order| == |items| && M.Permutation(order)
  }

  /** Every order of the input gives the same ranking. */
  ghost predicate RankingFree(items: seq<Item>) {
    forall order, ranked, ranked' ::
      Reorders(items, order) && RankingOf(items, ranked) && RankingOf(Reordered(items, order), ranked') ==>
        Faces(ranked) == Faces(ranked')
  }

  /** No two different items tie for canonical, and the best ones agree on the fit bucket. */
  ghost predicate Untied(group: seq<Item>) {
    NoTie(group) && OneBucket(group)
  }

  ghost predicate AllUntied(items: seq<Item>) {
    forall i: nat :: i < |items| ==> Untied(GroupOf(items, i))
  }

  /* ---------- One order for distinct keys ---------- */

  ghost predicate KeysDiffer<T>(s: seq<T>, key: T -> seq<int>) {
    forall i, j :: 0 <= i < j < |s| ==> key(s[i]) != key(s[j])
  }

  lemma GreatestFirst<T>(s: seq<T>, t: seq<T>, key: T -> seq<int>)
    requires s != [] && t != [] && t[0] in s && Sorted(s, key, true)
    ensures Leq(key(t[0]), key(s[0]))
  {
    var i :| 0 <= i < |s| && s[i] == t[0];
    if i == 0 {
      LeqTotal(key(s[0]), key(s[0]));
    } else {
      assert Before(s[0], s[i], key, true);
    }
  }

  lemma InTail<T>(s: seq<T>, key: T -> seq<int>, x: T)
    requires s != [] && KeysDiffer(s, key)
    ensures x in s[1..] <==> x in s && x != s[0]
  {
    assert s == [s[0]] + s[1..];
    forall i | 0 <= i < |s[1..]|
      ensures s[1..][i] != s[0]
    {
      assert key(s[0]) != key(s[i + 1]);
    }
  }

  /** Elements with different keys can be sorted in one way only. */
  lemma {:induction false} SortedOneWay<T>(s: seq<T>, t: seq<T>, key: T -> seq<int>)
    requires Sorted(s, key, true) && Sorted(t, key, true) && KeysDiffer(s, key) && KeysDiffer(t, key)
    requires forall x :: x in s <==> x in t
    ensures s == t
  {
    hide Leq;
    if s == [] {
      NoMembers(t);
    } else {
      assert s[0] in t;
      GreatestFirst(s, t, key);
      GreatestFirst(t, s, key);
      LeqAntisymmetric(key(s[0]), key(t[0]));
      var i :| 0 <= i < |s| && s[i] == t[0];
      assert i == 0;
      forall x
        ensures x in s[1..] <==> x in t[1..]
      {
        InTail(s, key, x);
        InTail(t, key, x);
      }
      SortedOneWay(s[1..], t[1..], key);
      assert s == [s[0]] + s[1..] && t == [t[0]] + t[1..];
    }
  }

  /* ---------- The keys of a ranking differ ---------- */

  lemma CanonicalSource(items: seq<Item>, ranked: seq<Response>, k: nat) returns (a: nat)
    requires RankingOf(items, ranked) && k < |ranked|
    ensures a < |items| && InGroup(items, a, ranked[k].identity) && ranked[k].canonicalId == items[a].subject.reviewId
  {
    hide GroupsOf;
    var g := ranked[k].identity;
    RankedDescribes(items, GroupsOf(items), ranked, k);
    var x :| x in Members(items, GroupsOf(items)[g]) && ranked[k].canonicalId == x.subject.reviewId;
    a := MemberIndex(items, g, x);
  }

  lemma GroupsApart(items: seq<Item>, a: nat, b: nat, g: string, h: string)
    requires a < |items| && b < |items| && InGroup(items, a, g) && InGroup(items, b, h) && g != h
    ensures a != b
  {
    hide InGroup;
    if a == b {
      SameName(items, a, g, h);
    }
  }

  lemma CanonicalIdsDiffer(items: seq<Item>, ranked: seq<Response>, j: nat, k: nat)
    requires DistinctReviews(items) && RankingOf(items, ranked) && j < k < |ranked|
    ensures ranked[j].canonicalId != ranked[k].canonicalId
  {
    var a := CanonicalSource(items, ranked, j);
    var b := CanonicalSource(items, ranked, k);
    assert ranked[j].identity != ranked[k].identity;
    hide GroupsOf, InGroup, RankingOf;
    GroupsApart(items, a, b, ranked[j].identity, ranked[k].identity);
  }

  lemma FaceKeyIsRankKey(r: Response)
    ensures FaceKey(FaceOf(r)) == RankKey(r)
  {}

  lemma FacesOrdered(items: seq<Item>, ranked: seq<Response>, j: nat, k: nat)
    requires DistinctReviews(items) && RankingOf(items, ranked) && j < k < |ranked|
    ensures FaceKey(FaceOf(ranked[j])) != FaceKey(FaceOf(ranked[k]))
    ensures Before(FaceOf(ranked[j]), FaceOf(ranked[k]), FaceKey, true)
  {
    CanonicalIdsDiffer(items, ranked, j, k);
    assert Sorted(ranked, RankKey, true) by {
      hide GroupsOf, DistinctReviews, Sorted, Entry, Listed;
    }
    hide RankingOf, DistinctReviews, Leq, FaceKey, RankKey;
    assert Before(ranked[j], ranked[k], RankKey, true);
    FaceKeyIsRankKey(ranked[j]);
    FaceKeyIsRankKey(ranked[k]);
    KeyNamesFace(FaceOf(ranked[j]), FaceOf(ranked[k]));
  }

  lemma KeyNamesFace(f: Face, f': Face)
    ensures FaceKey(f) == FaceKey(f') ==> f.canonicalId == f'.canonicalId
  {
    if FaceKey(f) == FaceKey(f') {
      assert FaceKey(f)[2..] == Codes(f.canonicalId) && FaceKey(f')[2..] == Codes(f'.canonicalId);
      CodesInjective(f.canonicalId, f'.canonicalId);
    }
  }

  lemma FaceKeysDiffer(items: seq<Item>, ranked: seq<Response>)
    requires DistinctReviews(items) && RankingOf(items, ranked)
    ensures KeysDiffer(Faces(ranked), FaceKey) && Sorted(Faces(ranked), FaceKey, true)
  {
    hide RankingOf, DistinctReviews, Before, FaceKey;
    forall j, k | 0 <= j < k < |ranked|
      ensures FaceKey(FaceOf(ranked[j])) != FaceKey(FaceOf(ranked[k]))
      ensures Before(FaceOf(ranked[j]), FaceOf(ranked[k]), FaceKey, true)
    {
      FacesOrdered(items, ranked, j, k);
    }
  }

  /* ---------- Without ties ---------- */

  lemma UntiedGroup(items: seq<Item>, g: string)
    requires AllUntied(items) && g in GroupsOf(items)
    ensures Untied(Members(items, GroupsOf(items)[g]))
  {
    hide Untied;
    var i := GroupsOf(items)[g][0];
    assert InGroup(items, i, g);
    OneGroupOf(items, i, g);
  }

  /** Each response of the reordered input shows what some response of the original shows. */
  lemma FaceMatches(items: seq<Item>, order: seq<nat>, ranked: seq<Response>, ranked': seq<Response>, k: nat)
      returns (l: nat)
    requires DistinctReviews(items) && AllUntied(items) && Reorders(items, order)
    requires RankingOf(items, ranked) && RankingOf(Reordered(items, order), ranked') && k < |ranked'|
    ensures l < |ranked| && FaceOf(ranked[l]) == FaceOf(ranked'[k])
  {
    hide GroupsOf, NoTie, OneBucket, DistinctReviews, AllUntied, Ranks;
    l := OrderInsensitive(items, order, GroupsOf(items), ranked, GroupsOf(Reordered(items, order)), ranked', k);
    UntiedGroup(items, ranked[l].identity);
  }

  /** And each response of the original is met in this way. */
  lemma FaceFound(items: seq<Item>, order: seq<nat>, ranked: seq<Response>, ranked': seq<Response>, l: nat)
      returns (k: nat)
    requires DistinctReviews(items) && AllUntied(items) && Reorders(items, order)
    requires RankingOf(items, ranked) && RankingOf(Reordered(items, order), ranked') && l < |ranked|
    ensures k < |ranked'| && FaceOf(ranked'[k]) == FaceOf(ranked[l])
  {
    hide GroupsOf, AllUntied, Ranks, InGroup;
    var a := CanonicalSource(items, ranked, l);
    var e := PlaceOf(order, a);
    ReorderedDistinct(items, order);
    k := FindGroup(Reordered(items, order), GroupsOf(Reordered(items, order)), ranked', e);
    var l' := FaceMatches(items, order, ranked, ranked', k);
    SamePlace(items, ranked, l, l', a);
  }

  lemma PlaceOf(order: seq<nat>, a: nat) returns (e: nat)
    requires M.Permutation(order) && a < |order|
    ensures e < |order| && order[e] == a
  {
    M.Covers(order, a);
    e :| 0 <= e < |order| && order[e] == a;
  }

  /** An item is merged into one place of a ranking only. */
  lemma SamePlace(items: seq<Item>, ranked: seq<Response>, l: nat, l': nat, a: nat)
    requires DistinctReviews(items) && RankingOf(items, ranked) && l < |ranked| && l' < |ranked| && a < |items|
    requires InGroup(items, a, ranked[l].identity) && items[a].subject.reviewId in ranked[l'].merged
    ensures l == l'
  {
    hide GroupsOf, DistinctReviews;
    MergedIff(items, GroupsOf(items), ranked, l', a);
    assert InGroup(items, a, ranked[l'].identity);
    SameName(items, a, ranked[l].identity, ranked[l'].identity);
    hide InGroup;
  }

  lemma SameFaces(items: seq<Item>, order: seq<nat>, ranked: seq<Response>, ranked': seq<Response>, f: Face)
    requires DistinctReviews(items) && AllUntied(items) && Reorders(items, order)
    requires RankingOf(items, ranked) && RankingOf(Reordered(items, order), ranked')
    ensures f in Faces(ranked) <==> f in Faces(ranked')
  {
    hide RankingOf, DistinctReviews, AllUntied, FaceOf;
    if f in Faces(ranked) {
      var l :| 0 <= l < |ranked| && Faces(ranked)[l] == f;
      var k := FaceFound(items, order, ranked, ranked', l);
      assert Faces(ranked')[k] == f;
    }
    if f in Faces(ranked') {
      var k :| 0 <= k < |ranked'| && Faces(ranked')[k] == f;
      var l := FaceMatches(items, order, ranked, ranked', k);
      assert Faces(ranked)[l] == f;
    }
  }

  lemma UntiedIsFree(items: seq<Item>, order: seq<nat>, ranked: seq<Response>, ranked': seq<Response>)
    requires DistinctReviews(items) && AllUntied(items) && Reorders(items, order)
    requires RankingOf(items, ranked) && RankingOf(Reordered(items, order), ranked')
    ensures Faces(ranked) == Faces(ranked')
  {
    ReorderedDistinct(items, order);
    hide RankingOf, DistinctReviews, AllUntied, KeysDiffer, Sorted, FaceKey, FaceOf, Faces;
    FaceKeysDiffer(items, ranked);
    FaceKeysDiffer(Reordered(items, order), ranked');
    forall f
      ensures f in Faces(ranked) <==> f in Faces(ranked')
    {
      SameFaces(items, order, ranked, ranked', f);
    }
    SortedOneWay(Faces(ranked), Faces(ranked'), FaceKey);
  }

  /* ---------- With a tie ---------- */

  lemma {:induction false} Listing(names: set<string>) returns (order: seq<string>)
    ensures M.Distinct(order) && forall g :: g in order <==> g in names
  {
    if names == {} {
      order := [];
    } else {
      var g :| g in names;
      order := Listing(names - {g});
      order := order + [g];
    }
  }

  /** Every input has a ranking. */
  lemma RankingExists(items: seq<Item>) returns (ranked: seq<Response>)
    ensures RankingOf(items, ranked)
  {
    hide GroupsOf, Ranks, Project, RankKey;
    var groups := GroupsOf(items);
    var order := Listing(groups.Keys);
    assert forall k :: 0 <= k < |order| ==> order[k] in groups;
    var projected := seq(|order|, k requires 0 <= k < |order| => Project(items, groups, order[k]));
    SortRanks(items, groups, order, projected);
    ranked := SortBy(projected, RankKey, true);
  }

  /** The place of an item shows its group's canonical item. */
  lemma PlaceShows(items: seq<Item>, ranked: seq<Response>, i: nat) returns (k: nat)
    requires DistinctReviews(items) && RankingOf(items, ranked) && i < |items|
    ensures k < |ranked| && InGroup(items, i, ranked[k].identity)
    ensures items[i].subject.reviewId in ranked[k].merged
    ensures ranked[k].canonicalId == CanonicalFor(items, i).subject.reviewId
    ensures ranked[k].fitBucket == BestFor(items, i).fitBucket
  {
    hide GroupsOf, DistinctReviews, CanonicalFor, BestFor;
    k := FindGroup(items, GroupsOf(items), ranked, i);
    MergedIff(items, GroupsOf(items), ranked, k, i);
    assert InGroup(items, i, ranked[k].identity);
    CanonicalInOutput(items, ranked, k, i);
  }

  /** In rankings that show the same, the group of item `i` has canonical items of one review id and
      best items of one bucket. */
  lemma SameShown(items: seq<Item>, order: seq<nat>, ranked: seq<Response>, ranked': seq<Response>, i: nat, k: nat)
    requires DistinctReviews(items) && Reorders(items, order) && i < |items| && k < |order| && order[k] == i
    requires RankingOf(items, ranked) && RankingOf(Reordered(items, order), ranked') && Faces(ranked) == Faces(ranked')
    ensures CanonicalFor(items, i).subject.reviewId == CanonicalFor(Reordered(items, order), k).subject.reviewId
    ensures BestFor(items, i).fitBucket == BestFor(Reordered(items, order), k).fitBucket
  {
    var items' := Reordered(items, order);
    assert items'[k] == items[i];
    ReorderedDistinct(items, order);
    hide RankingOf, DistinctReviews, CanonicalFor, BestFor, M.Permutation, InGroup;
    var p := PlaceShows(items, ranked, i);
    var q := PlaceShows(items', ranked', k);
    assert |ranked| == |Faces(ranked)| == |ranked'|;
    assert Faces(ranked)[q] == Faces(ranked')[q];
    SamePlace(items, ranked, p, q, i);
  }

  lemma DifferentIds(items: seq<Item>, i: nat, x: Item, y: Item)
    requires DistinctReviews(items) && i < |items| && x in GroupOf(items, i) && y in GroupOf(items, i) && x != y
    ensures x.subject.reviewId != y.subject.reviewId
  {
    var g := GroupName(items, i);
    hide GroupsOf, GroupOf;
    var a := MemberIndex(items, g, x);
    var b := MemberIndex(items, g, y);
  }

  /** What a free ranking shows for item `i` in another order of the input. */
  lemma FreeShows(items: seq<Item>, order: seq<nat>, i: nat, k: nat)
    requires DistinctReviews(items) && RankingFree(items) && Reorders(items, order)
    requires i < |items| && k < |order| && order[k] == i
    ensures CanonicalFor(items, i).subject.reviewId == CanonicalFor(Reordered(items, order), k).subject.reviewId
    ensures BestFor(items, i).fitBucket == BestFor(Reordered(items, order), k).fitBucket
  {
    hide DistinctReviews, Faces, RankingOf, CanonicalFor, BestFor;
    var ranked := RankingExists(items);
    var ranked' := RankingExists(Reordered(items, order));
    SameShown(items, order, ranked, ranked', i, k);
  }

  lemma FreeIsUntied(items: seq<Item>, i: nat)
    requires DistinctReviews(items) && RankingFree(items) && i < |items|
    ensures NoTie(GroupOf(items, i))
  {
    hide DistinctReviews, GroupsOf, GroupOf, RankingFree;
    CanonicalIsTop(GroupOf(items, i));
    if !NoTie(GroupOf(items, i)) {
      var z :| TopKey(GroupOf(items, i), z) && z != CanonicalFor(items, i);
      var order, k := CanBeCanonical(items, i, z);
      FreeShows(items, order, i, k);
      DifferentIds(items, i, z, CanonicalFor(items, i));
    }
  }

  lemma FreeHasOneBucket(items: seq<Item>, i: nat)
    requires DistinctReviews(items) && RankingFree(items) && i < |items|
    ensures OneBucket(GroupOf(items, i))
  {
    hide DistinctReviews, GroupsOf, GroupOf, RankingFree;
    if !OneBucket(GroupOf(items, i)) {
      var z :| TopScore(GroupOf(items, i), z) && z.fitBucket != BestFor(items, i).fitBucket;
      var order, k := CanBeBest(items, i, z);
      FreeShows(items, order, i, k);
    }
  }

  /** Every order of the input gives the same ranking, place by place, exactly when no group has two
      different items that tie for canonical or best items in different fit buckets. */
  lemma RankingFreeIff(items: seq<Item>)
    requires DistinctReviews(items)
    ensures RankingFree(items) <==> AllUntied(items)
  {
    hide DistinctReviews, Faces, NoTie, OneBucket;
    if AllUntied(items) {
      forall order, ranked, ranked' |
        Reorders(items, order) && RankingOf(items, ranked) && RankingOf(Reordered(items, order), ranked')
        ensures Faces(ranked) == Faces(ranked')
      {
        UntiedIsFree(items, order, ranked, ranked');
      }
    }
    if RankingFree(items) {
      hide RankingFree;
      forall i: nat | i < |items|
        ensures Untied(GroupOf(items, i))
      {
        FreeIsUntied(items, i);
        FreeHasOneBucket(items, i);
      }
    }
  }
}
