/** How the order of the input decides which item stands for a group: the merge on a reordered
    input, followed far enough to say exactly when the choice depends on the order. */
module CandidateOrder {
  import opened Order
  import opened Ranges
  import opened CandidateKeys
  import opened CandidateProjection
  import M = CandidateMerging

  ghost predicate AllKeyed(keysOf: seq<M.Keys>) {
    forall i :: 0 <= i < |keysOf| ==> keysOf[i] != []
  }

  /** The component of item 0 comes first: each of its items but the first shares a key with an earlier
      one, and none of it comes later. */
  ghost predicate Led(keysOf: seq<M.Keys>, m: nat) {
    && 1 <= m <= |keysOf|
    && (forall n :: 1 <= n < m ==> SharesEarlier(keysOf, n))
    && (forall n :: m <= n < |keysOf| ==> !M.Connected(keysOf, 0, n))
  }

  ghost predicate SharesEarlier(keysOf: seq<M.Keys>, n: nat)
    requires n < |keysOf|
  {
    exists i :: 0 <= i < n && M.Shares(keysOf[i], keysOf[n])
  }

  /* ---------- The merge of an input that is led by item 0 ---------- */

  ghost predicate Heads(groups: M.Groups, g: string) {
    g in groups && groups[g] != [] && groups[g][0] == 0
  }

  lemma OwnerOfZero(groups: M.Groups, owner: seq<string>, g: string)
    requires M.Owned(groups, owner) && Heads(groups, g)
    ensures |owner| > 0 && owner[0] == g
  {
    assert M.AllOwned(groups[g], owner, g);
  }

  /** Item n touches only the groups of earlier items it shares a key with. */
  lemma TouchedIsOwner(keysOf: seq<M.Keys>, groups: M.Groups, keyToGroup: map<string, string>, owner: seq<string>,
                       h: string)
    requires |owner| < |keysOf| && M.Merged(keysOf, groups, keyToGroup, owner)
    requires h in M.Touched(keysOf[|owner|], keyToGroup)
    ensures h in owner
  {
    var k :| k in keysOf[|owner|] && k in keyToGroup && keyToGroup[k] == h;
    var i :| M.Carries(keysOf, owner, i, k) && owner[i] == keyToGroup[k];
  }

  lemma SharedIsTouched(keysOf: seq<M.Keys>, groups: M.Groups, keyToGroup: map<string, string>, owner: seq<string>)
    requires |owner| < |keysOf| && M.Merged(keysOf, groups, keyToGroup, owner) && SharesEarlier(keysOf, |owner|)
    ensures M.Touched(keysOf[|owner|], keyToGroup) != {}
  {
    var n := |owner|;
    var i :| 0 <= i < n && M.Shares(keysOf[i], keysOf[n]);
    var k :| k in keysOf[i] && k in keysOf[n];
    assert M.Carries(keysOf, owner, i, k);
    assert keyToGroup[k] in M.Touched(keysOf[n], keyToGroup);
  }

  lemma MergeOfStep(keysOf: seq<M.Keys>, n: nat)
    requires AllKeyed(keysOf) && 1 <= n <= |keysOf|
    ensures M.MergeOf(keysOf, n)
         == M.Added(M.MergeOf(keysOf, n - 1).0, M.MergeOf(keysOf, n - 1).1, keysOf[n - 1], n - 1)
  {
    hide M.Added;
  }

  ghost predicate OnlyGroup(groups: M.Groups, g: string) {
    groups.Keys == {g} && Heads(groups, g)
  }

  lemma OneGroupStep(keysOf: seq<M.Keys>, m: nat, n: nat, g: string)
    requires AllKeyed(keysOf) && Led(keysOf, m) && 2 <= n <= m && OnlyGroup(M.MergeOf(keysOf, n - 1).0, g)
    ensures OnlyGroup(M.MergeOf(keysOf, n).0, g)
  {
    var owner := M.MergeOfMerged(keysOf, n - 1);
    assert SharesEarlier(keysOf, n - 1);
    MergeOfStep(keysOf, n);
    hide M.Merged, M.Added, Led, SharesEarlier, Heads, M.Touched, M.MergeOf;
    SharedIsTouched(keysOf, M.MergeOf(keysOf, n - 1).0, M.MergeOf(keysOf, n - 1).1, owner);
    TouchesOnly(keysOf, M.MergeOf(keysOf, n - 1).0, M.MergeOf(keysOf, n - 1).1, owner, g);
    AddedToOnly(M.MergeOf(keysOf, n - 1).0, M.MergeOf(keysOf, n - 1).1, keysOf[n - 1], n - 1, g);
  }

  /** While item 0's component is being merged there is one group, which starts with item 0. */
  lemma {:induction false} OneGroup(keysOf: seq<M.Keys>, m: nat, n: nat)
    requires AllKeyed(keysOf) && Led(keysOf, m) && 1 <= n <= m
    ensures keysOf[0] != [] && OnlyGroup(M.MergeOf(keysOf, n).0, keysOf[0][0])
    decreases n
  {
    FirstItem(keysOf);
    if n > 1 {
      OneGroup(keysOf, m, n - 1);
      OneGroupStep(keysOf, m, n, keysOf[0][0]);
    }
  }

  lemma TouchesOnly(keysOf: seq<M.Keys>, groups: M.Groups, keyToGroup: map<string, string>, owner: seq<string>,
                    g: string)
    requires |owner| < |keysOf| && M.Merged(keysOf, groups, keyToGroup, owner) && groups.Keys == {g}
    ensures forall h :: h in M.Touched(keysOf[|owner|], keyToGroup) ==> h == g
  {
    forall h | h in M.Touched(keysOf[|owner|], keyToGroup)
      ensures h == g
    {
      TouchedIsOwner(keysOf, groups, keyToGroup, owner, h);
      OwnersLive(groups, owner, h);
    }
  }

  lemma OwnersLive(groups: M.Groups, owner: seq<string>, h: string)
    requires M.Owned(groups, owner) && h in owner
    ensures h in groups
  {}

  lemma FirstItem(keysOf: seq<M.Keys>)
    requires AllKeyed(keysOf) && keysOf != []
    ensures keysOf[0] != [] && OnlyGroup(M.MergeOf(keysOf, 1).0, keysOf[0][0])
  {
    var keys := keysOf[0];
    var none: map<string, string> := map[];
    assert M.MergeOf(keysOf, 0) == (map[], none);
    NoMembers(M.Existing(keys, none));
    M.IdIsLeast(keys, none);
    NoOlds(keys, none);
    assert M.MergeOf(keysOf, 1) == M.Added(map[], none, keys, 0);
  }

  lemma NoOlds(keys: M.Keys, keyToGroup: map<string, string>)
    requires M.Existing(keys, keyToGroup) == []
    ensures M.Olds(keys, keyToGroup) == []
  {
    SortedUniqueIs(M.Existing(keys, keyToGroup));
    NoMembers(M.Olds(keys, keyToGroup));
  }

  lemma NoMembers<T>(s: seq<T>)
    ensures (forall x :: x !in s) ==> s == []
  {
    assert s != [] ==> s[0] in s;
  }

  lemma OneMember<T>(s: seq<T>, x: T)
    ensures M.Distinct(s) && x in s && (forall y :: y in s ==> y == x) ==> s == [x]
  {
    assert |s| > 1 ==> s[0] in s && s[1] in s;
  }

  /** An item that touches one group only is appended to it. */
  lemma AddedToOnly(groups: M.Groups, keyToGroup: map<string, string>, keys: M.Keys, n: nat, g: string)
    requires keys != [] && OnlyGroup(groups, g)
    requires forall h :: h in M.Touched(keys, keyToGroup) ==> h == g
    requires M.Touched(keys, keyToGroup) != {}
    ensures OnlyGroup(M.Added(groups, keyToGroup, keys, n).0, g)
  {
    var olds, id := M.Olds(keys, keyToGroup), M.IdFor(keys, keyToGroup);
    M.IdIsLeast(keys, keyToGroup);
    OneMember(olds, g);
    assert olds == [g] && id == g by {
      var h :| h in M.Touched(keys, keyToGroup);
    }
    hide M.Olds, M.IdFor;
    assert [g][..0] == [] && M.Folded(groups, [g][..0], g) == groups;
    assert M.Folded(groups, olds, id) == groups;
  }

  /** An item of another component does not touch the group of item 0. */
  lemma TouchesOthers(keysOf: seq<M.Keys>, groups: M.Groups, keyToGroup: map<string, string>, owner: seq<string>,
                      g: string)
    requires |owner| < |keysOf| && M.Merged(keysOf, groups, keyToGroup, owner)
    requires Heads(groups, g) && !M.Connected(keysOf, 0, |owner|)
    ensures g in owner && g !in M.Touched(keysOf[|owner|], keyToGroup)
  {
    var n := |owner|;
    OwnerOfZero(groups, owner, g);
    if g in M.Touched(keysOf[n], keyToGroup) {
      M.ConnectedToNew(keysOf, groups, keyToGroup, owner, 0);
      M.ConnectedRenamed(keysOf[..n + 1], keysOf, seq(n + 1, k requires 0 <= k => k), 0, n);
    }
  }

  /** And leaves it alone. */
  lemma AddedElsewhere(keysOf: seq<M.Keys>, groups: M.Groups, keyToGroup: map<string, string>, owner: seq<string>,
                       g: string)
    requires |owner| < |keysOf| && keysOf[|owner|] != [] && M.Merged(keysOf, groups, keyToGroup, owner)
    requires Heads(groups, g) && !M.Connected(keysOf, 0, |owner|)
    ensures Heads(M.Added(groups, keyToGroup, keysOf[|owner|], |owner|).0, g)
  {
    var n := |owner|;
    var keys := keysOf[n];
    var olds, id := M.Olds(keys, keyToGroup), M.IdFor(keys, keyToGroup);
    TouchesOthers(keysOf, groups, keyToGroup, owner, g);
    M.IdIsLeast(keys, keyToGroup);
    M.FreshId(keysOf, groups, keyToGroup, owner, olds, id);
    hide M.Olds, M.IdFor, M.Merged, M.Connected, M.Touched, M.KeysAssigned;
    assert g !in olds && id != g;
    M.FoldedOther(groups, olds, id, g);
    hide M.Folded;
  }

  /** In the merge of an input led by item 0, the group of item 0 starts with it. */
  lemma {:induction false} ZeroLeads(keysOf: seq<M.Keys>, m: nat, n: nat) returns (g: string)
    requires AllKeyed(keysOf) && Led(keysOf, m) && m <= n <= |keysOf|
    ensures Heads(M.MergeOf(keysOf, n).0, g)
  {
    if n == m {
      OneGroup(keysOf, m, n);
      g := keysOf[0][0];
    } else {
      g := ZeroLeads(keysOf, m, n - 1);
      var owner := M.MergeOfMerged(keysOf, n - 1);
      assert !M.Connected(keysOf, 0, n - 1);
      MergeOfStep(keysOf, n);
      hide M.Merged, M.Connected, M.Added, Heads, Led, M.MergeOf;
      AddedElsewhere(keysOf, M.MergeOf(keysOf, n - 1).0, M.MergeOf(keysOf, n - 1).1, owner, g);
    }
  }

  /* ---------- Putting an item first ---------- */

  /** Some item outside the list shares a key with one inside it. */
  ghost predicate Open(keysOf: seq<M.Keys>, front: seq<nat>, x: nat, y: nat) {
    x in front && y < |keysOf| && y !in front && x < |keysOf| && M.Shares(keysOf[x], keysOf[y])
  }

  ghost predicate Within(front: seq<nat>, n: nat) {
    M.Distinct(front) && forall i :: 0 <= i < |front| ==> front[i] < n
  }

  /** Each item of the list but the first shares a key with one before it. */
  ghost predicate Grown(keysOf: seq<M.Keys>, front: seq<nat>)
    requires Within(front, |keysOf|)
  {
    forall n :: 1 <= n < |front| ==> SharesBefore(keysOf, front, n)
  }

  ghost predicate SharesBefore(keysOf: seq<M.Keys>, front: seq<nat>, n: nat)
    requires Within(front, |keysOf|) && n < |front|
  {
    exists i :: 0 <= i < n && M.Shares(keysOf[front[i]], keysOf[front[n]])
  }

  lemma WithinBound(front: seq<nat>, n: nat)
    requires Within(front, n)
    ensures |front| <= n
  {
    assert forall x :: x in M.Values(front) ==> x in Range(n);
    SubsetSize(M.Values(front), Range(n));
  }

  lemma WithinMore(front: seq<nat>, n: nat, y: nat)
    requires Within(front, n) && y < n && y !in front
    ensures Within(front + [y], n)
  {}

  /** The component of an item, in an order in which it grows from that item. */
  lemma GrowFrom(keysOf: seq<M.Keys>, i: nat) returns (front: seq<nat>)
    requires i < |keysOf|
    ensures Within(front, |keysOf|) && front != [] && front[0] == i && Grown(keysOf, front)
    ensures forall x, y :: !Open(keysOf, front, x, y)
  {
    front := [i];
    while exists x, y :: Open(keysOf, front, x, y)
      invariant Within(front, |keysOf|) && front != [] && front[0] == i && Grown(keysOf, front)
      decreases |keysOf| - |front|
    {
      var x, y :| Open(keysOf, front, x, y);
      WithinMore(front, |keysOf|, y);
      WithinBound(front + [y], |keysOf|);
      GrownMore(keysOf, front, x, y);
      front := front + [y];
    }
  }

  lemma GrownMore(keysOf: seq<M.Keys>, front: seq<nat>, x: nat, y: nat)
    requires Within(front, |keysOf|) && Grown(keysOf, front) && Open(keysOf, front, x, y)
    requires Within(front + [y], |keysOf|)
    ensures Grown(keysOf, front + [y])
  {
    hide M.Shares;
    var more := front + [y];
    forall n | 1 <= n < |more|
      ensures SharesBefore(keysOf, more, n)
    {
      if n < |front| {
        assert SharesBefore(keysOf, front, n);
        var i :| 0 <= i < n && M.Shares(keysOf[front[i]], keysOf[front[n]]);
        assert more[i] == front[i] && more[n] == front[n];
      } else {
        var i :| 0 <= i < |front| && front[i] == x;
        assert more[i] == x && more[n] == y;
      }
    }
  }

  /** No chain leaves a list that is closed under sharing. */
  lemma {:induction false} ChainStays(keysOf: seq<M.Keys>, front: seq<nat>, p: seq<nat>, i: nat, j: nat)
    requires M.ChainBetween(keysOf, p, i, j) && i in front && forall x, y :: !Open(keysOf, front, x, y)
    ensures j in front
    decreases |p|
  {
    if |p| > 1 {
      assert !Open(keysOf, front, p[0], p[1]);
      assert M.Shares(keysOf[p[0]], keysOf[p[0 + 1]]);
      assert M.ChainBetween(keysOf, p[1..], p[1], j);
      ChainStays(keysOf, front, p[1..], p[1], j);
    }
  }

  /** The list continued with all other items. */
  lemma Completed(front: seq<nat>, n: nat) returns (order: seq<nat>)
    requires Within(front, n)
    ensures |order| == n && M.Permutation(order) && front <= order
  {
    order := front;
    WithinBound(order, n);
    while |order| < n
      invariant Within(order, n) && |order| <= n && front <= order
    {
      if forall y :: 0 <= y < n ==> y in order {
        assert Range(n) <= M.Values(order);
        SubsetSize(Range(n), M.Values(order));
      }
      var y: nat :| y < n && y !in order;
      WithinMore(order, n, y);
      order := order + [y];
    }
  }

  /** Any item can be put first, with its component after it. */
  lemma LeadingOrder(keysOf: seq<M.Keys>, i: nat) returns (order: seq<nat>, m: nat)
    requires i < |keysOf|
    ensures |order| == |keysOf| && M.Permutation(order) && order[0] == i
    ensures Led(M.Permuted(keysOf, order), m)
  {
    var front := GrowFrom(keysOf, i);
    order := Completed(front, |keysOf|);
    m := |front|;
    var permuted := M.Permuted(keysOf, order);
    forall n | 1 <= n < m
      ensures SharesEarlier(permuted, n)
    {
      assert SharesBefore(keysOf, front, n);
      var e :| 0 <= e < n && M.Shares(keysOf[front[e]], keysOf[front[n]]);
      assert permuted[e] == keysOf[front[e]] && permuted[n] == keysOf[front[n]];
    }
    forall n | m <= n < |keysOf|
      ensures !M.Connected(permuted, 0, n)
    {
      M.ConnectedPermuted(keysOf, order, 0, n);
      assert order[n] !in front by {
        assert forall e :: 0 <= e < m ==> order[e] == front[e];
      }
      if M.Connected(keysOf, i, order[n]) {
        var p :| M.ChainBetween(keysOf, p, i, order[n]);
        ChainStays(keysOf, front, p, i, order[n]);
      }
    }
  }

  /* ---------- The canonical item of a group ---------- */

  lemma MergeOfGroups(items: seq<Item>)
    ensures AllKeyed(AllKeys(items))
    ensures Grouped(items, M.MergeOf(AllKeys(items), |items|).0)
    ensures Usable(items, M.MergeOf(AllKeys(items), |items|).0)
  {
    var owner := M.MergeOfMerged(AllKeys(items), |items|);
    M.MergedIsComponents(AllKeys(items), M.MergeOf(AllKeys(items), |items|).0,
                         M.MergeOf(AllKeys(items), |items|).1, owner);
    GroupedIsUsable(items, M.MergeOf(AllKeys(items), |items|).0);
  }

  /** The groups of an input. */
  ghost function GroupsOf(items: seq<Item>): (groups: M.Groups)
    ensures Grouped(items, groups) && Usable(items, groups)
  {
    MergeOfGroups(items);
    M.MergeOf(AllKeys(items), |items|).0
  }

  /** Item `i` is in the group named `g`. */
  ghost predicate InGroup(items: seq<Item>, i: nat, g: string) {
    g in GroupsOf(items) && i in GroupsOf(items)[g]
  }

  lemma HasGroup(items: seq<Item>, i: nat)
    requires i < |items|
    ensures exists g :: InGroup(items, i, g)
  {
    assert M.InSome(GroupsOf(items), i);
    var g :| g in GroupsOf(items) && i in GroupsOf(items)[g];
    assert InGroup(items, i, g);
  }

  ghost function GroupMembers(items: seq<Item>, g: string): (group: seq<Item>)
    requires g in GroupsOf(items)
    ensures group != []
  {
    Members(items, GroupsOf(items)[g])
  }

  /** The items merged with item `i`, itself included. */
  ghost function GroupOf(items: seq<Item>, i: nat): (group: seq<Item>)
    requires i < |items|
    ensures group != []
  {
    HasGroup(items, i);
    var g :| InGroup(items, i, g);
    GroupMembers(items, g)
  }

  /** The item that stands for them. */
  ghost function CanonicalFor(items: seq<Item>, i: nat): Item
    requires i < |items|
  {
    Canonical(GroupOf(items, i))
  }

  /** The item whose fit bucket they show. */
  ghost function BestFor(items: seq<Item>, i: nat): Item
    requires i < |items|
  {
    Best(GroupOf(items, i))
  }

  /** The response shows the review id and level of the one and the bucket of the other. */
  lemma CanonicalInOutput(items: seq<Item>, ranked: seq<Response>, k: nat, i: nat)
    requires Ranks(items, GroupsOf(items), ranked) && k < |ranked| && i < |items|
    requires InGroup(items, i, ranked[k].identity)
    ensures ranked[k].canonicalId == CanonicalFor(items, i).subject.reviewId
    ensures ranked[k].level == CanonicalFor(items, i).level && ranked[k].fitBucket == BestFor(items, i).fitBucket
  {
    var groups, g := GroupsOf(items), ranked[k].identity;
    assert Entry(items, groups, ranked[k]);
    OneGroupOf(items, i, g);
  }

  /** An item has one group only. */
  lemma OneGroupOf(items: seq<Item>, i: nat, g: string)
    requires i < |items| && InGroup(items, i, g)
    ensures GroupOf(items, i) == GroupMembers(items, g)
  {
    HasGroup(items, i);
    forall h | InGroup(items, i, h)
      ensures h == g
    {
      SameName(items, i, g, h);
    }
    hide InGroup, GroupMembers;
  }

  lemma SameName(items: seq<Item>, i: nat, g: string, h: string)
    requires i < |items| && InGroup(items, i, g) && InGroup(items, i, h)
    ensures g == h
  {
    hide GroupsOf;
    M.ConnectedSelf(AllKeys(items), i);
    TogetherIff(items, GroupsOf(items), g, h, i, i);
  }

  lemma GroupName(items: seq<Item>, i: nat) returns (g: string)
    requires i < |items|
    ensures InGroup(items, i, g) && GroupOf(items, i) == GroupMembers(items, g)
  {
    hide InGroup, GroupMembers, GroupOf;
    HasGroup(items, i);
    g :| InGroup(items, i, g);
    OneGroupOf(items, i, g);
  }

  lemma ReorderedKeys(items: seq<Item>, order: seq<nat>)
    requires |order| == |items| && M.Permutation(order)
    ensures AllKeys(Reordered(items, order)) == M.Permuted(AllKeys(items), order)
  {}

  /** The members of a group do not depend on the order of the input. */
  lemma SameGroup(items: seq<Item>, order: seq<nat>, k: nat)
    requires |order| == |items| && M.Permutation(order) && k < |order|
    ensures forall x :: x in GroupOf(Reordered(items, order), k) <==> x in GroupOf(items, order[k])
  {
    hide GroupOf;
    var g := GroupName(Reordered(items, order), k);
    var h := SameNamed(items, order, k, g);
    OneGroupOf(items, order[k], h);
  }

  lemma SameNamed(items: seq<Item>, order: seq<nat>, k: nat, g: string) returns (h: string)
    requires |order| == |items| && M.Permutation(order) && k < |order| && InGroup(Reordered(items, order), k, g)
    ensures InGroup(items, order[k], h)
    ensures forall x :: x in GroupMembers(Reordered(items, order), g) <==> x in GroupMembers(items, h)
  {
    hide GroupsOf, AllKeys, M.Components, M.Permuted;
    ReorderedKeys(items, order);
    h := M.GroupsPermuted(AllKeys(items), order, GroupsOf(items), GroupsOf(Reordered(items, order)), g);
    SameMembers(items, order, GroupsOf(items)[h], GroupsOf(Reordered(items, order))[g]);
  }

  lemma TopOfSame(a: seq<Item>, b: seq<Item>, x: Item)
    requires TopKey(a, x) && forall y :: y in a <==> y in b
    ensures TopKey(b, x)
  {}

  /** An item with the greatest key that comes first is Python's maximum. */
  lemma FirstGreatest(group: seq<Item>, key: Item -> seq<int>)
    requires group != [] && forall y :: y in group ==> Leq(key(y), key(group[0]))
    ensures FirstMax(group, key) == 0
  {
    var m := FirstMax(group, key);
    assert Leq(key(group[0]), key(group[m]));
    assert group[m] in group;
    LeqAntisymmetric(key(group[m]), key(group[0]));
  }

  /** Some order of the input puts any given item of a group first in the group's list. */
  lemma CanLead(items: seq<Item>, i: nat, z: Item) returns (order: seq<nat>, k: nat)
    requires i < |items| && z in GroupOf(items, i)
    ensures |order| == |items| && M.Permutation(order) && k < |order| && order[k] == i
    ensures GroupOf(Reordered(items, order), k)[0] == z
    ensures forall x :: x in GroupOf(Reordered(items, order), k) <==> x in GroupOf(items, i)
  {
    hide GroupsOf, GroupOf, AllKeys, M.Components, M.Permuted, Led, Heads;
    var g := GroupName(items, i);
    var j := MemberIndex(items, g, z);
    Together(items, g, i, j);
    var m;
    order, m := LeadingOrder(AllKeys(items), j);
    var h := ZeroGroup(items, order, m);
    M.Covers(order, i);
    k :| 0 <= k < |order| && order[k] == i;
    ReorderedKeys(items, order);
    M.ConnectedPermuted(AllKeys(items), order, 0, k);
    SameGroup(items, order, k);
    var named := GroupName(Reordered(items, order), k);
    HeadOfGroup(Reordered(items, order), h, named, k);
  }

  /** Any item with the greatest key of its group can be made the canonical one by reordering the
      input. */
  lemma CanBeCanonical(items: seq<Item>, i: nat, z: Item) returns (order: seq<nat>, k: nat)
    requires i < |items| && TopKey(GroupOf(items, i), z)
    ensures |order| == |items| && M.Permutation(order) && k < |order| && order[k] == i
    ensures CanonicalFor(Reordered(items, order), k) == z
  {
    hide GroupOf, TopKey;
    TopKeyIff(GroupOf(items, i), z);
    order, k := CanLead(items, i, z);
    forall y | y in GroupOf(Reordered(items, order), k)
      ensures Leq(CanonicalKey(y), CanonicalKey(z))
    {
      assert y in GroupOf(items, i);
    }
    FirstGreatest(GroupOf(Reordered(items, order), k), CanonicalKey);
  }

  /** Likewise any item with the greatest score key can be made the one whose bucket is shown. */
  lemma CanBeBest(items: seq<Item>, i: nat, z: Item) returns (order: seq<nat>, k: nat)
    requires i < |items| && TopScore(GroupOf(items, i), z)
    ensures |order| == |items| && M.Permutation(order) && k < |order| && order[k] == i
    ensures BestFor(Reordered(items, order), k) == z
  {
    hide GroupOf, TopScore;
    TopScoreIff(GroupOf(items, i), z);
    order, k := CanLead(items, i, z);
    forall y | y in GroupOf(Reordered(items, order), k)
      ensures Leq(ScoreKey(y), ScoreKey(z))
    {
      assert y in GroupOf(items, i);
    }
    FirstGreatest(GroupOf(Reordered(items, order), k), ScoreKey);
  }

  lemma ZeroGroup(items: seq<Item>, order: seq<nat>, m: nat) returns (h: string)
    requires |order| == |items| && M.Permutation(order) && Led(M.Permuted(AllKeys(items), order), m)
    ensures Heads(GroupsOf(Reordered(items, order)), h)
  {
    hide AllKeys, M.Permuted, Heads;
    ReorderedKeys(items, order);
    MergeOfGroups(Reordered(items, order));
    h := ZeroLeads(AllKeys(Reordered(items, order)), m, |items|);
  }

  lemma MemberIndex(items: seq<Item>, g: string, z: Item) returns (j: nat)
    requires g in GroupsOf(items) && z in GroupMembers(items, g)
    ensures j < |items| && items[j] == z && InGroup(items, j, g)
  {
    hide GroupsOf;
    var group := GroupsOf(items)[g];
    var x :| 0 <= x < |group| && GroupMembers(items, g)[x] == z;
    j := group[x];
  }

  lemma Together(items: seq<Item>, g: string, i: nat, j: nat)
    requires i < |items| && j < |items| && InGroup(items, i, g) && InGroup(items, j, g)
    ensures M.Connected(AllKeys(items), j, i)
  {
    hide GroupsOf;
    TogetherIff(items, GroupsOf(items), g, g, j, i);
  }

  lemma HeadOfGroup(items: seq<Item>, h: string, g: string, k: nat)
    requires k < |items| && Heads(GroupsOf(items), h) && InGroup(items, k, g) && M.Connected(AllKeys(items), 0, k)
    ensures g == h && GroupMembers(items, g)[0] == items[0]
  {
    hide GroupsOf;
    assert GroupsOf(items)[h][0] in GroupsOf(items)[h];
    TogetherIff(items, GroupsOf(items), h, g, 0, k);
  }

  /** The item that stands for item `i`'s group is the same in every input order. */
  ghost predicate InputOrderFree(items: seq<Item>, i: nat)
    requires i < |items|
  {
    forall order: seq<nat>, k: nat :: |order| == |items| && M.Permutation(order) && k < |order| && order[k] == i ==>
      CanonicalFor(Reordered(items, order), k) == CanonicalFor(items, i)
  }

  /** The canonical item of a group is independent of the order of the whole input exactly when no two
      different items of the group tie for the greatest key. */
  lemma InputOrderFreeIff(items: seq<Item>, i: nat)
    requires i < |items|
    ensures InputOrderFree(items, i) <==> NoTie(GroupOf(items, i))
  {
    CanonicalIsTop(GroupOf(items, i));
    if NoTie(GroupOf(items, i)) {
      forall order: seq<nat>, k: nat | |order| == |items| && M.Permutation(order) && k < |order| && order[k] == i
        ensures CanonicalFor(Reordered(items, order), k) == CanonicalFor(items, i)
      {
        SameGroup(items, order, k);
        CanonicalIsTop(GroupOf(Reordered(items, order), k));
        TopOfSame(GroupOf(Reordered(items, order), k), GroupOf(items, i), CanonicalFor(Reordered(items, order), k));
      }
    } else {
      var z :| TopKey(GroupOf(items, i), z) && z != CanonicalFor(items, i);
      var order, k := CanBeCanonical(items, i, z);
      assert CanonicalFor(Reordered(items, order), k) != CanonicalFor(items, i);
    }
  }

  /** The fit bucket shown for item `i`'s group is the same in every input order. */
  ghost predicate BucketOrderFree(items: seq<Item>, i: nat)
    requires i < |items|
  {
    forall order: seq<nat>, k: nat :: |order| == |items| && M.Permutation(order) && k < |order| && order[k] == i ==>
      BestFor(Reordered(items, order), k).fitBucket == BestFor(items, i).fitBucket
  }

  lemma TopScoreOfSame(a: seq<Item>, b: seq<Item>, x: Item)
    requires TopScore(a, x) && forall y :: y in a <==> y in b
    ensures TopScore(b, x)
  {}

  /** The fit bucket of a group is independent of the order of the whole input exactly when its items
      with the greatest score key share one bucket. */
  lemma BucketOrderFreeIff(items: seq<Item>, i: nat)
    requires i < |items|
    ensures BucketOrderFree(items, i) <==> OneBucket(GroupOf(items, i))
  {
    BestIsTop(GroupOf(items, i));
    hide ScoreKey, GroupOf;
    if OneBucket(GroupOf(items, i)) {
      forall order: seq<nat>, k: nat | |order| == |items| && M.Permutation(order) && k < |order| && order[k] == i
        ensures BestFor(Reordered(items, order), k).fitBucket == BestFor(items, i).fitBucket
      {
        SameGroup(items, order, k);
        BestIsTop(GroupOf(Reordered(items, order), k));
        TopScoreOfSame(GroupOf(Reordered(items, order), k), GroupOf(items, i), BestFor(Reordered(items, order), k));
      }
    } else {
      var z :| TopScore(GroupOf(items, i), z) && z.fitBucket != BestFor(items, i).fitBucket;
      var order, k := CanBeBest(items, i, z);
      assert BestFor(Reordered(items, order), k).fitBucket != BestFor(items, i).fitBucket;
    }
  }
}
