/** The incremental merge of items into groups by identity key, and the proof that its groups are
    exactly the connected components of "shares a key". Items are named by their position. */
module CandidateMerging {
  import opened Order
  import opened Ranges
  import CandidateIdentity

  type Keys = seq<string>
  type Groups = map<string, seq<nat>>

  ghost predicate Shares(a: Keys, b: Keys) {
    CandidateIdentity.Shares(a, b)
  }

  /* ---------- Connectedness ---------- */

  /** A chain of items, each sharing a key with the next. */
  ghost predicate Chain(keysOf: seq<Keys>, p: seq<nat>) {
    && p != []
    && (forall i :: 0 <= i < |p| ==> p[i] < |keysOf|)
    && (forall i :: 0 <= i < |p| - 1 ==> Shares(keysOf[p[i]], keysOf[p[i + 1]]))
  }

  ghost predicate ChainBetween(keysOf: seq<Keys>, p: seq<nat>, i: nat, j: nat) {
    Chain(keysOf, p) && p[0] == i && p[|p| - 1] == j
  }

  ghost predicate Connected(keysOf: seq<Keys>, i: nat, j: nat) {
    exists p :: ChainBetween(keysOf, p, i, j)
  }

  lemma ConnectedSelf(keysOf: seq<Keys>, i: nat)
    requires i < |keysOf|
    ensures Connected(keysOf, i, i)
  {
    assert ChainBetween(keysOf, [i], i, i);
  }

  lemma ConnectedLink(keysOf: seq<Keys>, i: nat, j: nat)
    requires i < |keysOf| && j < |keysOf| && Shares(keysOf[i], keysOf[j])
    ensures Connected(keysOf, i, j)
  {
    assert ChainBetween(keysOf, [i, j], i, j);
  }

  lemma ConnectedSymmetric(keysOf: seq<Keys>, i: nat, j: nat)
    requires Connected(keysOf, i, j)
    ensures Connected(keysOf, j, i)
  {
    var p :| ChainBetween(keysOf, p, i, j);
    var n := |p|;
    var q := seq(n, k requires 0 <= k < n => p[n - 1 - k]);
    forall k | 0 <= k < n - 1
      ensures Shares(keysOf[q[k]], keysOf[q[k + 1]])
    {
      assert Shares(keysOf[p[n - 2 - k]], keysOf[p[n - 2 - k + 1]]);
    }
    assert ChainBetween(keysOf, q, j, i);
  }

  lemma ConnectedTransitive(keysOf: seq<Keys>, i: nat, j: nat, k: nat)
    requires Connected(keysOf, i, j) && Connected(keysOf, j, k)
    ensures Connected(keysOf, i, k)
  {
    var p :| ChainBetween(keysOf, p, i, j);
    var q :| ChainBetween(keysOf, q, j, k);
    var r := p + q[1..];
    forall x | 0 <= x < |r| - 1
      ensures Shares(keysOf[r[x]], keysOf[r[x + 1]])
    {
      if x >= |p| - 1 {
        assert r[x] == q[x - |p| + 1] && r[x + 1] == q[x - |p| + 2];
      }
    }
    assert ChainBetween(keysOf, r, i, k);
  }

  /** Chains survive renaming the items, and so more items. */
  lemma ConnectedRenamed(keysOf: seq<Keys>, keysOf': seq<Keys>, f: seq<nat>, i: nat, j: nat)
    requires |f| == |keysOf|
    requires forall x :: 0 <= x < |f| ==> f[x] < |keysOf'| && keysOf'[f[x]] == keysOf[x]
    requires Connected(keysOf, i, j)
    ensures i < |f| && j < |f| && Connected(keysOf', f[i], f[j])
  {
    var p :| ChainBetween(keysOf, p, i, j);
    var q := seq(|p|, k requires 0 <= k < |p| => f[p[k]]);
    assert ChainBetween(keysOf', q, f[i], f[j]);
  }

  lemma ConnectedGrows(keysOf: seq<Keys>, n: nat, i: nat, j: nat)
    requires n < |keysOf| && Connected(keysOf[..n], i, j)
    ensures i < n && j < n && Connected(keysOf[..n + 1], i, j)
  {
    ConnectedRenamed(keysOf[..n], keysOf[..n + 1], seq(n, k requires 0 <= k => k), i, j);
  }

  /* ---------- The merge state ---------- */

  ghost predicate Distinct<T>(s: seq<T>) {
    forall i, j :: 0 <= i < j < |s| ==> s[i] != s[j]
  }

  ghost predicate AllOwned(group: seq<nat>, owner: seq<string>, g: string) {
    forall x :: 0 <= x < |group| ==> group[x] < |owner| && owner[group[x]] == g
  }

  /** The groups as a partition: `owner[i]` is the id of the group item i is in. */
  ghost predicate Owned(groups: Groups, owner: seq<string>) {
    && (forall g :: g in groups ==> groups[g] != [] && Distinct(groups[g]) && AllOwned(groups[g], owner, g))
    && (forall i :: 0 <= i < |owner| ==> owner[i] in groups && i in groups[owner[i]])
  }

  /** Item i, already merged, carries key k. */
  ghost predicate Carries(keysOf: seq<Keys>, owner: seq<string>, i: int, k: string) {
    0 <= i < |owner| && i < |keysOf| && k in keysOf[i]
  }

  ghost predicate SelfMapped(groups: Groups, keyToGroup: map<string, string>) {
    forall g :: g in groups ==> g in keyToGroup && keyToGroup[g] == g
  }

  ghost predicate Carried(keysOf: seq<Keys>, keyToGroup: map<string, string>, owner: seq<string>) {
    forall k :: k in keyToGroup ==> exists i :: Carries(keysOf, owner, i, k) && owner[i] == keyToGroup[k]
  }

  ghost predicate CarriersMapped(keysOf: seq<Keys>, keyToGroup: map<string, string>, owner: seq<string>) {
    forall i, k :: Carries(keysOf, owner, i, k) ==> k in keyToGroup && keyToGroup[k] == owner[i]
  }

  /** A live group id maps to itself, a mapped key belongs to a group with an item carrying it, and
      an item's keys all map to its group. */
  ghost predicate Indexed(keysOf: seq<Keys>, groups: Groups, keyToGroup: map<string, string>, owner: seq<string>) {
    SelfMapped(groups, keyToGroup) && Carried(keysOf, keyToGroup, owner) && CarriersMapped(keysOf, keyToGroup, owner)
  }

  ghost predicate Joined(keysOf: seq<Keys>, owner: seq<string>)
    requires |owner| <= |keysOf|
  {
    forall i, j :: 0 <= i < |owner| && 0 <= j < |owner| && owner[i] == owner[j] ==>
      Connected(keysOf[..|owner|], i, j)
  }

  ghost predicate Merged(keysOf: seq<Keys>, groups: Groups, keyToGroup: map<string, string>, owner: seq<string>) {
    |owner| <= |keysOf|
    && Owned(groups, owner) && Indexed(keysOf, groups, keyToGroup, owner) && Joined(keysOf, owner)
  }

  ghost function Redirected(owner: seq<string>, from: seq<string>, to: string): (r: seq<string>)
    ensures |r| == |owner|
  {
    seq(|owner|, i requires 0 <= i < |owner| => if owner[i] in from then to else owner[i])
  }

  /** The groups a new item touches. */
  ghost function Touched(keys: Keys, keyToGroup: map<string, string>): set<string> {
    set k | k in keys && k in keyToGroup :: keyToGroup[k]
  }

  /** The groups of an item's mapped keys, in key order. */
  ghost function Existing(keys: Keys, keyToGroup: map<string, string>): (ids: seq<string>)
    ensures forall g :: g in ids <==> g in Touched(keys, keyToGroup)
  {
    if keys == [] then []
    else
      var n := |keys| - 1;
      assert keys == keys[..n] + [keys[n]];
      Existing(keys[..n], keyToGroup) + if keys[n] in keyToGroup then [keyToGroup[keys[n]]] else []
  }

  method ExistingGroups(keys: Keys, keyToGroup: map<string, string>) returns (ids: seq<string>)
    ensures ids == Existing(keys, keyToGroup)
  {
    ids := [];
    for i := 0 to |keys|
      invariant ids == Existing(keys[..i], keyToGroup)
    {
      assert keys[..i + 1][..i] == keys[..i];
      if keys[i] in keyToGroup {
        ids := ids + [keyToGroup[keys[i]]];
      }
    }
    assert keys[..|keys|] == keys;
  }

  /** The least of some group ids. */
  function Least(ids: seq<string>): (r: string)
    requires ids != []
    ensures r in ids
    ensures forall x :: x in ids ==> Leq(Codes(r), Codes(x))
  {
    if |ids| == 1 then
      LeqTotal(Codes(ids[0]), Codes(ids[0]));
      ids[0]
    else
      var m := Least(ids[1..]);
      LeqTotal(Codes(ids[0]), Codes(m));
      LeqTotal(Codes(ids[0]), Codes(ids[0]));
      assert forall x :: x in ids <==> x == ids[0] || x in ids[1..];
      if Leq(Codes(ids[0]), Codes(m)) then
        assert forall x :: x in ids ==> Leq(Codes(ids[0]), Codes(x)) by {
          forall x | x in ids[1..]
            ensures Leq(Codes(ids[0]), Codes(x))
          {
            LeqTransitive(Codes(ids[0]), Codes(m), Codes(x));
          }
        }
        ids[0]
      else m
  }

  function Remapped(keyToGroup: map<string, string>, from: string, to: string): map<string, string> {
    map k | k in keyToGroup :: if keyToGroup[k] == from then to else keyToGroup[k]
  }

  /** Send every key of one group to another. */
  method Remap(keyToGroup: map<string, string>, from: string, to: string) returns (r: map<string, string>)
    ensures r == Remapped(keyToGroup, from, to)
  {
    r := keyToGroup;
    var todo := keyToGroup.Keys;
    while todo != {}
      invariant todo <= keyToGroup.Keys == r.Keys
      invariant forall k :: k in r ==> r[k] == if k !in todo && keyToGroup[k] == from then to else keyToGroup[k]
      decreases |todo|
    {
      var k :| k in todo;
      todo := todo - {k};
      if keyToGroup[k] == from {
        r := r[k := to];
      }
    }
  }

  /** Move the members of group `from` to the end of group `to`. */
  function Absorb(groups: Groups, from: string, to: string): Groups
    requires from in groups && to in groups
  {
    (groups - {from})[to := groups[to] + groups[from]]
  }

  lemma AbsorbOwned(groups: Groups, owner: seq<string>, from: string, to: string)
    requires Owned(groups, owner) && from in groups && to in groups && from != to
    ensures Owned(Absorb(groups, from, to), Redirected(owner, [from], to))
  {
    var groups', owner' := Absorb(groups, from, to), Redirected(owner, [from], to);
    var a, b := groups[to], groups[from];
    assert groups'[to] == a + b;
    assert forall i :: 0 <= i < |owner| ==> owner'[i] == if owner[i] == from then to else owner[i];
    assert AllOwned(a, owner, to) && AllOwned(b, owner, from);
    assert AllOwned(a + b, owner', to);
    forall i, j | 0 <= i < j < |a + b|
      ensures (a + b)[i] != (a + b)[j]
    {
      if i < |a| <= j {
        assert owner[a[i]] == to && owner[b[j - |a|]] == from;
      }
    }
    forall g | g in groups' && g != to
      ensures AllOwned(groups'[g], owner', g)
    {
      assert groups'[g] == groups[g] && AllOwned(groups[g], owner, g);
    }
    forall i | 0 <= i < |owner'|
      ensures owner'[i] in groups' && i in groups'[owner'[i]]
    {
      assert i in groups[owner[i]];
    }
  }

  /** The touched groups folded into one, in order: members of later groups follow. */
  ghost function Folded(groups: Groups, olds: seq<string>, id: string): Groups {
    if olds == [] then groups
    else
      var n := |olds| - 1;
      var before := Folded(groups, olds[..n], id);
      if olds[n] == id || olds[n] !in before || id !in before then before else Absorb(before, olds[n], id)
  }

  lemma {:induction false} FoldedOwned(groups: Groups, olds: seq<string>, id: string, owner: seq<string>)
    requires Owned(groups, owner) && Distinct(olds)
    requires forall g :: g in olds ==> g in groups
    requires olds != [] ==> id in groups
    ensures Owned(Folded(groups, olds, id), Redirected(owner, olds, id))
    ensures forall g :: g in Folded(groups, olds, id) <==> g in groups && (g == id || g !in olds)
  {
    if olds == [] {
      assert Redirected(owner, olds, id) == owner;
    } else {
      var n := |olds| - 1;
      var front, last := olds[..n], olds[n];
      assert olds == front + [last] && last !in front;
      FoldedOwned(groups, front, id, owner);
      var before := Redirected(owner, front, id);
      if last == id {
        assert Redirected(owner, olds, id) == before;
      } else {
        AbsorbOwned(Folded(groups, front, id), before, last, id);
        assert Redirected(before, [last], id) == Redirected(owner, olds, id);
      }
    }
  }

  /** A group that is not touched keeps its members and their order. */
  lemma {:induction false} FoldedOther(groups: Groups, olds: seq<string>, id: string, g: string)
    requires g in groups && g !in olds && g != id
    ensures g in Folded(groups, olds, id) && Folded(groups, olds, id)[g] == groups[g]
  {
    if olds != [] {
      FoldedOther(groups, olds[..|olds| - 1], id, g);
    }
  }

  lemma FoldedNone(groups: Groups, id: string)
    ensures Folded(groups, [], id) == groups
  {}

  lemma FoldedStep(groups: Groups, olds: seq<string>, i: nat, id: string, owner: seq<string>)
    requires Owned(groups, owner) && Distinct(olds) && i < |olds| && id in groups
    requires forall g :: g in olds ==> g in groups
    ensures var before := Folded(groups, olds[..i], id);
            if olds[i] == id then Folded(groups, olds[..i + 1], id) == before
            else olds[i] in before && id in before && Folded(groups, olds[..i + 1], id) == Absorb(before, olds[i], id)
  {
    FoldedOwned(groups, olds[..i], id, owner);
    hide Owned, Absorb;
    assert olds[..i + 1][..i] == olds[..i];
  }

  /** Fold the touched groups into one. */
  method JoinGroups(groups: Groups, keyToGroup: map<string, string>, olds: seq<string>, id: string,
                    ghost owner: seq<string>)
      returns (groups': Groups, keyToGroup': map<string, string>)
    requires Owned(groups, owner) && Distinct(olds)
    requires forall g :: g in olds ==> g in groups
    requires olds != [] ==> id in groups
    ensures groups' == Folded(groups, olds, id)
    ensures Owned(groups', Redirected(owner, olds, id))
    ensures forall g :: g in groups' <==> g in groups && (g == id || g !in olds)
    ensures keyToGroup'.Keys == keyToGroup.Keys
    ensures forall k :: k in keyToGroup ==>
              keyToGroup'[k] == if keyToGroup[k] in olds then id else keyToGroup[k]
  {
    hide Owned, Absorb, Folded, Redirected;
    groups', keyToGroup' := groups, keyToGroup;
    FoldedNone(groups, id);
    for i := 0 to |olds|
      invariant groups' == Folded(groups, olds[..i], id)
      invariant keyToGroup'.Keys == keyToGroup.Keys
      invariant forall k :: k in keyToGroup ==>
                  keyToGroup'[k] == if keyToGroup[k] in olds[..i] then id else keyToGroup[k]
    {
      assert olds[..i + 1] == olds[..i] + [olds[i]];
      FoldedStep(groups, olds, i, id, owner);
      if olds[i] == id {
        continue;
      }
      groups' := Absorb(groups', olds[i], id);
      keyToGroup' := Remap(keyToGroup', olds[i], id);
    }
    assert olds[..|olds|] == olds;
    FoldedOwned(groups, olds, id, owner);
  }

  /* ---------- Adding one item ---------- */

  /** `olds` are the groups the next item touches and `id` the one they are folded into: the least
      of them, or a new group named by the item's first key. */
  ghost predicate Chosen(keys: Keys, keyToGroup: map<string, string>, olds: seq<string>, id: string) {
    && (forall g :: g in olds <==> g in Touched(keys, keyToGroup))
    && (if olds == [] then keys != [] && id == keys[0] else id in olds)
  }

  ghost function Extended(groups: Groups, id: string, n: nat): Groups {
    groups[id := (if id in groups then groups[id] else []) + [n]]
  }

  lemma ExtendedOwned(groups: Groups, owner: seq<string>, id: string)
    requires Owned(groups, owner)
    ensures Owned(Extended(groups, id, |owner|), owner + [id])
  {
    var n := |owner|;
    var groups', owner' := Extended(groups, id, n), owner + [id];
    forall g | g in groups'
      ensures groups'[g] != [] && Distinct(groups'[g]) && AllOwned(groups'[g], owner', g)
    {
      assert g in groups ==> AllOwned(groups[g], owner, g);
      if g == id {
        var members := if id in groups then groups[id] else [];
        assert AllOwned(members, owner, id) && Distinct(members) && groups'[id] == members + [n];
      } else {
        assert groups'[g] == groups[g];
      }
    }
    forall i | 0 <= i < |owner'|
      ensures owner'[i] in groups' && i in groups'[owner'[i]]
    {
      if i < n {
        assert i in groups[owner[i]];
      } else {
        assert groups'[id][|groups'[id]| - 1] == n;
      }
    }
  }

  /** An item of a touched group is connected to the new item. */
  lemma ConnectedToNew(keysOf: seq<Keys>, groups: Groups, keyToGroup: map<string, string>, owner: seq<string>, i: nat)
    requires |owner| < |keysOf| && Indexed(keysOf, groups, keyToGroup, owner) && Joined(keysOf, owner)
    requires i < |owner| && owner[i] in Touched(keysOf[|owner|], keyToGroup)
    ensures Connected(keysOf[..|owner| + 1], i, |owner|)
  {
    var n := |owner|;
    var k :| k in keysOf[n] && k in keyToGroup && keyToGroup[k] == owner[i];
    var x :| Carries(keysOf, owner, x, k) && owner[x] == owner[i];
    ConnectedGrows(keysOf, n, i, x);
    ConnectedLink(keysOf[..n + 1], x, n);
    ConnectedTransitive(keysOf[..n + 1], i, x, n);
  }

  lemma AddedJoined(keysOf: seq<Keys>, groups: Groups, keyToGroup: map<string, string>, owner: seq<string>,
                    olds: seq<string>, id: string)
    requires |owner| < |keysOf| && Merged(keysOf, groups, keyToGroup, owner)
    requires Chosen(keysOf[|owner|], keyToGroup, olds, id)
    ensures Joined(keysOf, Redirected(owner, olds, id) + [id])
  {
    var n := |owner|;
    var owner' := Redirected(owner, olds, id) + [id];
    FreshId(keysOf, groups, keyToGroup, owner, olds, id);
    forall i, j | 0 <= i < n + 1 && 0 <= j < n + 1 && owner'[i] == owner'[j]
      ensures Connected(keysOf[..n + 1], i, j)
    {
      if i < n && j < n && owner[i] == owner[j] {
        ConnectedGrows(keysOf, n, i, j);
      } else {
        ToNew(keysOf, groups, keyToGroup, owner, olds, id, i);
        ToNew(keysOf, groups, keyToGroup, owner, olds, id, j);
        ConnectedSymmetric(keysOf[..n + 1], j, n);
        ConnectedTransitive(keysOf[..n + 1], i, n, j);
      }
    }
  }

  lemma ToNew(keysOf: seq<Keys>, groups: Groups, keyToGroup: map<string, string>, owner: seq<string>,
              olds: seq<string>, id: string, i: nat)
    requires |owner| < |keysOf| && Indexed(keysOf, groups, keyToGroup, owner) && Joined(keysOf, owner)
    requires Chosen(keysOf[|owner|], keyToGroup, olds, id)
    requires i <= |owner| && (i < |owner| ==> owner[i] in olds)
    ensures Connected(keysOf[..|owner| + 1], i, |owner|)
  {
    if i < |owner| {
      ConnectedToNew(keysOf, groups, keyToGroup, owner, i);
    } else {
      ConnectedSelf(keysOf[..|owner| + 1], i);
    }
  }

  /** A group that is not touched is not the chosen one; in particular a new id names no live group. */
  lemma FreshId(keysOf: seq<Keys>, groups: Groups, keyToGroup: map<string, string>, owner: seq<string>,
                olds: seq<string>, id: string)
    requires |owner| < |keysOf| && Merged(keysOf, groups, keyToGroup, owner)
    requires Chosen(keysOf[|owner|], keyToGroup, olds, id)
    ensures forall g :: g in olds ==> g in groups
    ensures olds == [] ==> id !in groups && id !in keyToGroup
    ensures id !in olds ==> id !in owner
  {
    forall g | g in olds
      ensures g in groups
    {
      var k :| k in keysOf[|owner|] && k in keyToGroup && keyToGroup[k] == g;
      var i :| Carries(keysOf, owner, i, k) && owner[i] == g;
    }
    assert id in keyToGroup && id in keysOf[|owner|] ==> keyToGroup[id] in Touched(keysOf[|owner|], keyToGroup);
  }

  /** How the key index changes when item n is added. */
  ghost predicate Reindexed(keys: Keys, olds: seq<string>, id: string, keyToGroup: map<string, string>,
                            keyToGroup': map<string, string>)
  {
    && (forall k :: k in keyToGroup' <==> k in keyToGroup || k in keys)
    && (forall k :: k in keyToGroup' ==>
          keyToGroup'[k] == if k in keys || keyToGroup[k] in olds then id else keyToGroup[k])
  }

  lemma AddedCarried(keysOf: seq<Keys>, keyToGroup: map<string, string>, owner: seq<string>,
                     olds: seq<string>, id: string, keyToGroup': map<string, string>)
    requires |owner| < |keysOf| && Carried(keysOf, keyToGroup, owner)
    requires Reindexed(keysOf[|owner|], olds, id, keyToGroup, keyToGroup')
    ensures Carried(keysOf, keyToGroup', Redirected(owner, olds, id) + [id])
  {
    var n := |owner|;
    var owner' := Redirected(owner, olds, id) + [id];
    forall k | k in keyToGroup'
      ensures exists i :: Carries(keysOf, owner', i, k) && owner'[i] == keyToGroup'[k]
    {
      if k in keysOf[n] {
        assert Carries(keysOf, owner', n, k) && owner'[n] == id;
      } else {
        var i :| Carries(keysOf, owner, i, k) && owner[i] == keyToGroup[k];
        assert Carries(keysOf, owner', i, k) && owner'[i] == keyToGroup'[k];
      }
    }
  }

  lemma AddedMapped(keysOf: seq<Keys>, keyToGroup: map<string, string>, owner: seq<string>,
                    olds: seq<string>, id: string, keyToGroup': map<string, string>)
    requires |owner| < |keysOf| && CarriersMapped(keysOf, keyToGroup, owner)
    requires Chosen(keysOf[|owner|], keyToGroup, olds, id)
    requires Reindexed(keysOf[|owner|], olds, id, keyToGroup, keyToGroup')
    ensures CarriersMapped(keysOf, keyToGroup', Redirected(owner, olds, id) + [id])
  {
    var n := |owner|;
    var owner' := Redirected(owner, olds, id) + [id];
    forall i, k | Carries(keysOf, owner', i, k)
      ensures k in keyToGroup' && keyToGroup'[k] == owner'[i]
    {
      if i < n {
        assert Carries(keysOf, owner, i, k);
        if k in keysOf[n] {
          assert keyToGroup[k] in Touched(keysOf[n], keyToGroup);
        }
      }
    }
  }

  lemma AddedSelfMapped(keys: Keys, groups: Groups, keyToGroup: map<string, string>,
                        olds: seq<string>, id: string, groups': Groups, keyToGroup': map<string, string>)
    requires SelfMapped(groups, keyToGroup) && Chosen(keys, keyToGroup, olds, id)
    requires forall g :: g in olds ==> g in groups
    requires forall g :: g in groups' ==> g == id || (g in groups && g !in olds)
    requires Reindexed(keys, olds, id, keyToGroup, keyToGroup')
    ensures SelfMapped(groups', keyToGroup')
  {
    forall g | g in groups'
      ensures g in keyToGroup' && keyToGroup'[g] == g
    {
      assert g in keys && g in keyToGroup ==> keyToGroup[g] in Touched(keys, keyToGroup);
      assert g == id ==> id in keys || id in olds;
    }
  }

  method AssignKeys(keyToGroup: map<string, string>, keys: Keys, id: string) returns (r: map<string, string>)
    ensures forall k :: k in r <==> k in keyToGroup || k in keys
    ensures forall k :: k in r ==> r[k] == if k in keys then id else keyToGroup[k]
  {
    r := keyToGroup;
    for i := 0 to |keys|
      invariant forall k :: k in r <==> k in keyToGroup || k in keys[..i]
      invariant forall k :: k in r ==> r[k] == if k in keys[..i] then id else keyToGroup[k]
    {
      assert keys[..i + 1] == keys[..i] + [keys[i]];
      r := r[keys[i] := id];
    }
    assert keys[..|keys|] == keys;
  }

  /** The touched groups, each once and in order. */
  ghost function Olds(keys: Keys, keyToGroup: map<string, string>): seq<string> {
    SortedUnique(Existing(keys, keyToGroup))
  }

  ghost function IdFor(keys: Keys, keyToGroup: map<string, string>): string
    requires keys != []
  {
    var existing := Existing(keys, keyToGroup);
    if existing != [] then Least(existing) else keys[0]
  }

  /** The group an item joins: the least of the groups it touches, else a new one. */
  lemma IdIsLeast(keys: Keys, keyToGroup: map<string, string>)
    requires keys != []
    ensures Chosen(keys, keyToGroup, Olds(keys, keyToGroup), IdFor(keys, keyToGroup))
    ensures Distinct(Olds(keys, keyToGroup))
    ensures forall g :: g in Olds(keys, keyToGroup) ==> Leq(Codes(IdFor(keys, keyToGroup)), Codes(g))
  {
    var existing := Existing(keys, keyToGroup);
    SortedUniqueIs(existing);
    if existing != [] {
      assert existing[0] in Olds(keys, keyToGroup);
    }
  }

  method ChooseGroup(keys: Keys, keyToGroup: map<string, string>) returns (olds: seq<string>, id: string)
    requires keys != []
    ensures olds == Olds(keys, keyToGroup) && id == IdFor(keys, keyToGroup)
    ensures Chosen(keys, keyToGroup, olds, id) && Distinct(olds)
    ensures forall g :: g in olds ==> Leq(Codes(id), Codes(g))
  {
    var existing := ExistingGroups(keys, keyToGroup);
    id := if existing != [] then Least(existing) else keys[0];
    olds := SortedUnique(existing);
    IdIsLeast(keys, keyToGroup);
  }

  lemma AddedMerged(keysOf: seq<Keys>, groups: Groups, keyToGroup: map<string, string>, owner: seq<string>,
                    olds: seq<string>, id: string, joined: Groups, keyToGroup': map<string, string>)
    requires |owner| < |keysOf| && Merged(keysOf, groups, keyToGroup, owner)
    requires Chosen(keysOf[|owner|], keyToGroup, olds, id)
    requires Owned(joined, Redirected(owner, olds, id))
    requires forall g :: g in joined <==> g in groups && (g == id || g !in olds)
    requires Reindexed(keysOf[|owner|], olds, id, keyToGroup, keyToGroup')
    ensures Merged(keysOf, Extended(joined, id, |owner|), keyToGroup', Redirected(owner, olds, id) + [id])
  {
    FreshId(keysOf, groups, keyToGroup, owner, olds, id);
    ExtendedOwned(joined, Redirected(owner, olds, id), id);
    AddedJoined(keysOf, groups, keyToGroup, owner, olds, id);
    AddedCarried(keysOf, keyToGroup, owner, olds, id, keyToGroup');
    AddedMapped(keysOf, keyToGroup, owner, olds, id, keyToGroup');
    AddedSelfMapped(keysOf[|owner|], groups, keyToGroup, olds, id, Extended(joined, id, |owner|), keyToGroup');
  }

  ghost function KeysAssigned(keyToGroup: map<string, string>, keys: Keys, olds: seq<string>,
                              id: string): map<string, string>
  {
    map k | k in keyToGroup.Keys + (set x | x in keys) ::
      if k in keys || keyToGroup[k] in olds then id else keyToGroup[k]
  }

  /** One turn of the merge loop, as a function. */
  ghost function Added(groups: Groups, keyToGroup: map<string, string>, keys: Keys, n: nat)
    : (Groups, map<string, string>)
    requires keys != []
  {
    var olds, id := Olds(keys, keyToGroup), IdFor(keys, keyToGroup);
    (Extended(Folded(groups, olds, id), id, n), KeysAssigned(keyToGroup, keys, olds, id))
  }

  lemma AddedKeeps(keysOf: seq<Keys>, groups: Groups, keyToGroup: map<string, string>, owner: seq<string>)
    requires |owner| < |keysOf| && keysOf[|owner|] != [] && Merged(keysOf, groups, keyToGroup, owner)
    ensures var (keys, n) := (keysOf[|owner|], |owner|);
            var (groups', keyToGroup') := Added(groups, keyToGroup, keys, n);
            var (olds, id) := (Olds(keys, keyToGroup), IdFor(keys, keyToGroup));
            Merged(keysOf, groups', keyToGroup', Redirected(owner, olds, id) + [id])
  {
    var keys := keysOf[|owner|];
    var olds, id := Olds(keys, keyToGroup), IdFor(keys, keyToGroup);
    hide Olds, IdFor;
    IdIsLeast(keys, keyToGroup);
    FreshId(keysOf, groups, keyToGroup, owner, olds, id);
    FoldedOwned(groups, olds, id, owner);
    hide Indexed, Joined, Owned, Folded;
    AddedMerged(keysOf, groups, keyToGroup, owner, olds, id, Folded(groups, olds, id),
                KeysAssigned(keyToGroup, keys, olds, id));
  }

  /** The members of some groups, group by group. */
  ghost function Gathered(groups: Groups, olds: seq<string>): seq<nat>
    requires forall g :: g in olds ==> g in groups
  {
    if olds == [] then [] else Gathered(groups, olds[..|olds| - 1]) + groups[olds[|olds| - 1]]
  }

  lemma {:induction false} FoldedGathers(groups: Groups, olds: seq<string>, owner: seq<string>)
    requires Owned(groups, owner) && Distinct(olds) && olds != [] && forall g :: g in olds ==> g in groups
    ensures olds[0] in Folded(groups, olds, olds[0])
    ensures Folded(groups, olds, olds[0])[olds[0]] == Gathered(groups, olds)
  {
    var n := |olds| - 1;
    var front := olds[..n];
    FoldedOwned(groups, front, olds[0], owner);
    hide Owned;
    if n == 0 {
      assert Gathered(groups, []) == [];
    } else {
      FoldedGathers(groups, front, owner);
      assert olds[n] !in front;
      FoldedOther(groups, front, olds[0], olds[n]);
    }
  }

  lemma LeastIsFirst(olds: seq<string>, id: string)
    requires id in olds && Sorted(olds, Codes, false) && forall g :: g in olds ==> Leq(Codes(id), Codes(g))
    ensures id == olds[0]
  {
    var i :| 0 <= i < |olds| && olds[i] == id;
    assert Before(olds[0], olds[i], Codes, false) || i == 0;
    assert olds[0] in olds;
    LeqTotal(Codes(id), Codes(id));
    LeqAntisymmetric(Codes(olds[0]), Codes(id));
    CodesInjective(olds[0], id);
  }

  /** The groups some key points to, each once, in increasing order of their names. */
  ghost predicate TouchedInOrder(keys: Keys, keyToGroup: map<string, string>, olds: seq<string>) {
    && (forall g :: g in olds <==> exists k :: k in keys && k in keyToGroup && keyToGroup[k] == g)
    && (forall i, j :: 0 <= i < j < |olds| ==> Leq(Codes(olds[i]), Codes(olds[j])) && olds[i] != olds[j])
  }

  /** The listed groups become one: its members are theirs, group by group, and then `n`. */
  ghost predicate JoinedInto(groups: Groups, olds: seq<string>, id: string, n: nat, after: Groups) {
    && (forall g :: g in olds ==> g in groups)
    && (forall g :: g in after <==> g == id || (g in groups && g !in olds))
    && after[id] == Gathered(groups, olds) + [n]
    && (forall g :: g in after && g != id ==> after[g] == groups[g])
  }

  /** What adding item `n` does: the groups its keys point to become one under the first of their
      names, and an item that touches no group starts one, named by its first key. All its keys and
      all keys of the joined groups then point there. */
  ghost predicate Adds(groups: Groups, keyToGroup: map<string, string>, keys: Keys, n: nat, groups': Groups,
                       keyToGroup': map<string, string>, olds: seq<string>, id: string)
  {
    && TouchedInOrder(keys, keyToGroup, olds)
    && keys != [] && id == (if olds == [] then keys[0] else olds[0])
    && JoinedInto(groups, olds, id, n, groups')
    && Reindexed(keys, olds, id, keyToGroup, keyToGroup')
  }

  /** A group keeps its first item, the one that started it: the names in the order of first items are
      the names in the order in which the groups came into being. */
  lemma FirstItemKept(groups: Groups, olds: seq<string>, id: string, n: nat, after: Groups)
    requires JoinedInto(groups, olds, id, n, after) && (forall g :: g in groups ==> groups[g] != [])
    requires if olds == [] then id !in groups else id == olds[0]
    ensures forall g :: g in after ==> after[g] != [] && after[g][0] == if g in groups then groups[g][0] else n
  {
    if olds != [] {
      GatheredFirst(groups, olds);
    }
  }

  lemma {:induction false} GatheredFirst(groups: Groups, olds: seq<string>)
    requires olds != [] && forall g :: g in olds ==> g in groups && groups[g] != []
    ensures Gathered(groups, olds) != [] && Gathered(groups, olds)[0] == groups[olds[0]][0]
  {
    var n := |olds| - 1;
    assert olds[0] in olds;
    if n > 0 {
      GatheredFirst(groups, olds[..n]);
    } else {
      assert Gathered(groups, []) == [];
    }
  }

  lemma FoldedMeans(groups: Groups, olds: seq<string>, id: string, n: nat, owner: seq<string>)
    requires Owned(groups, owner) && Distinct(olds) && forall g :: g in olds ==> g in groups
    requires if olds == [] then id !in groups else id == olds[0]
    ensures var after := Extended(Folded(groups, olds, id), id, n);
            JoinedInto(groups, olds, id, n, after)
  {
    FoldedOwned(groups, olds, id, owner);
    hide Owned;
    forall g | g in groups && g !in olds && g != id
      ensures g in Folded(groups, olds, id) && Folded(groups, olds, id)[g] == groups[g]
    {
      FoldedOther(groups, olds, id, g);
    }
    if olds != [] {
      FoldedGathers(groups, olds, owner);
    } else {
      FoldedNone(groups, id);
    }
    hide Folded;
  }

  lemma OldsOrder(keys: Keys, keyToGroup: map<string, string>)
    requires keys != []
    ensures var (olds, id) := (Olds(keys, keyToGroup), IdFor(keys, keyToGroup));
            && TouchedInOrder(keys, keyToGroup, olds)
            && id == (if olds == [] then keys[0] else olds[0])
  {
    var olds := Olds(keys, keyToGroup);
    IdIsLeast(keys, keyToGroup);
    SortedUniqueIs(Existing(keys, keyToGroup));
    if olds != [] {
      LeastIsFirst(olds, IdFor(keys, keyToGroup));
    }
    hide Leq, Olds, Least;
    forall i, j | 0 <= i < j < |olds|
      ensures Leq(Codes(olds[i]), Codes(olds[j]))
    {
      assert Before(olds[i], olds[j], Codes, false);
    }
  }

  lemma KeysReindexed(keyToGroup: map<string, string>, keys: Keys, olds: seq<string>, id: string)
    ensures Reindexed(keys, olds, id, keyToGroup, KeysAssigned(keyToGroup, keys, olds, id))
  {}

  lemma AddedAdds(keysOf: seq<Keys>, groups: Groups, keyToGroup: map<string, string>, owner: seq<string>)
    requires |owner| < |keysOf| && keysOf[|owner|] != [] && Merged(keysOf, groups, keyToGroup, owner)
    ensures var (keys, n) := (keysOf[|owner|], |owner|);
            var (groups', keyToGroup') := Added(groups, keyToGroup, keys, n);
            Adds(groups, keyToGroup, keys, n, groups', keyToGroup', Olds(keys, keyToGroup), IdFor(keys, keyToGroup))
  {
    var keys := keysOf[|owner|];
    var olds, id := Olds(keys, keyToGroup), IdFor(keys, keyToGroup);
    hide Merged, Owned, Chosen, Olds, IdFor, Leq, Folded, Extended, KeysAssigned, Reindexed, JoinedInto, TouchedInOrder;
    IdIsLeast(keys, keyToGroup);
    OldsOrder(keys, keyToGroup);
    MergedIsOwned(keysOf, groups, keyToGroup, owner);
    FreshId(keysOf, groups, keyToGroup, owner, olds, id);
    FoldedMeans(groups, olds, id, |owner|, owner);
    KeysReindexed(keyToGroup, keys, olds, id);
  }

  lemma MergedIsOwned(keysOf: seq<Keys>, groups: Groups, keyToGroup: map<string, string>, owner: seq<string>)
    requires Merged(keysOf, groups, keyToGroup, owner)
    ensures Owned(groups, owner)
  {}

  /** One turn of the merge loop. */
  method AddItem(keysOf: seq<Keys>, groups: Groups, keyToGroup: map<string, string>, n: nat, ghost owner: seq<string>)
      returns (groups': Groups, keyToGroup': map<string, string>, ghost owner': seq<string>)
    requires n == |owner| < |keysOf| && keysOf[n] != [] && Merged(keysOf, groups, keyToGroup, owner)
    ensures (groups', keyToGroup') == Added(groups, keyToGroup, keysOf[n], n)
    ensures Adds(groups, keyToGroup, keysOf[n], n, groups', keyToGroup', Olds(keysOf[n], keyToGroup),
                 IdFor(keysOf[n], keyToGroup))
    ensures |owner'| == n + 1 && Merged(keysOf, groups', keyToGroup', owner')
  {
    hide Merged, Folded, Olds, IdFor, Chosen, KeysAssigned, Redirected, Adds;
    assert Owned(groups, owner) by {
      MergedIsOwned(keysOf, groups, keyToGroup, owner);
    }
    hide Owned;
    var keys := keysOf[n];
    var olds, id := ChooseGroup(keys, keyToGroup);
    FreshId(keysOf, groups, keyToGroup, owner, olds, id);
    AddedKeeps(keysOf, groups, keyToGroup, owner);
    AddedAdds(keysOf, groups, keyToGroup, owner);
    var joined, remapped := JoinGroups(groups, keyToGroup, olds, id, owner);
    groups' := joined[id := (if id in joined then joined[id] else []) + [n]];
    keyToGroup' := AssignKeys(remapped, keys, id);
    owner' := Redirected(owner, olds, id) + [id];
    KeysAssignedIs(keyToGroup, keys, olds, id, remapped, keyToGroup');
  }

  lemma KeysAssignedIs(keyToGroup: map<string, string>, keys: Keys, olds: seq<string>, id: string,
                       remapped: map<string, string>, after: map<string, string>)
    requires remapped.Keys == keyToGroup.Keys
    requires forall k :: k in keyToGroup ==> remapped[k] == if keyToGroup[k] in olds then id else keyToGroup[k]
    requires forall k :: k in after <==> k in remapped || k in keys
    requires forall k :: k in after ==> after[k] == if k in keys then id else remapped[k]
    ensures after == KeysAssigned(keyToGroup, keys, olds, id)
  {}

  /** The merge of the first `n` items, as a function. */
  ghost function MergeOf(keysOf: seq<Keys>, n: nat): (Groups, map<string, string>)
    requires n <= |keysOf| && forall i :: 0 <= i < |keysOf| ==> keysOf[i] != []
  {
    if n == 0 then (map[], map[])
    else
      var (groups, keyToGroup) := MergeOf(keysOf, n - 1);
      Added(groups, keyToGroup, keysOf[n - 1], n - 1)
  }

  lemma {:induction false} MergeOfMerged(keysOf: seq<Keys>, n: nat) returns (owner: seq<string>)
    requires n <= |keysOf| && forall i :: 0 <= i < |keysOf| ==> keysOf[i] != []
    ensures |owner| == n && Merged(keysOf, MergeOf(keysOf, n).0, MergeOf(keysOf, n).1, owner)
  {
    if n == 0 {
      owner := [];
    } else {
      var before := MergeOfMerged(keysOf, n - 1);
      hide Merged, Added;
      var (groups, keyToGroup) := MergeOf(keysOf, n - 1);
      AddedKeeps(keysOf, groups, keyToGroup, before);
      owner := Redirected(before, Olds(keysOf[n - 1], keyToGroup), IdFor(keysOf[n - 1], keyToGroup))
             + [IdFor(keysOf[n - 1], keyToGroup)];
      assert |owner| == n;
    }
  }

  /* ---------- The theorem ---------- */

  ghost predicate InSome(groups: Groups, i: nat) {
    exists g :: g in groups && i in groups[g]
  }

  /** The groups are the connected components: together they hold every item, none of them is empty
      or repeats an item, and two items are in the same group exactly when a chain connects them. */
  ghost predicate Components(keysOf: seq<Keys>, groups: Groups) {
    && (forall g :: g in groups ==>
          groups[g] != [] && Distinct(groups[g]) && forall x :: 0 <= x < |groups[g]| ==> groups[g][x] < |keysOf|)
    && (forall i: nat :: i < |keysOf| ==> InSome(groups, i))
    && (forall g, h, x, y :: g in groups && h in groups && 0 <= x < |groups[g]| && 0 <= y < |groups[h]| ==>
          (g == h <==> Connected(keysOf, groups[g][x], groups[h][y])))
  }

  /** Items on one chain have one owner. */
  lemma {:induction false} ChainOneOwner(keysOf: seq<Keys>, groups: Groups, keyToGroup: map<string, string>,
                                         owner: seq<string>, p: seq<nat>, i: nat, j: nat)
    requires |owner| == |keysOf| && Merged(keysOf, groups, keyToGroup, owner) && ChainBetween(keysOf, p, i, j)
    ensures owner[i] == owner[j]
    decreases |p|
  {
    if |p| > 1 {
      var k :| k in keysOf[p[0]] && k in keysOf[p[1]];
      assert Carries(keysOf, owner, p[0], k) && Carries(keysOf, owner, p[1], k);
      assert ChainBetween(keysOf, p[1..], p[1], j);
      ChainOneOwner(keysOf, groups, keyToGroup, owner, p[1..], p[1], j);
    }
  }

  lemma MergedIsComponents(keysOf: seq<Keys>, groups: Groups, keyToGroup: map<string, string>, owner: seq<string>)
    requires |owner| == |keysOf| && Merged(keysOf, groups, keyToGroup, owner)
    ensures Components(keysOf, groups)
  {
    assert keysOf[..|owner|] == keysOf;
    forall g | g in groups
      ensures AllOwned(groups[g], owner, g)
    {}
    forall g, h, x, y | g in groups && h in groups && 0 <= x < |groups[g]| && 0 <= y < |groups[h]|
      ensures g == h <==> Connected(keysOf, groups[g][x], groups[h][y])
    {
      var i, j := groups[g][x], groups[h][y];
      assert owner[i] == g && owner[j] == h;
      if p :| ChainBetween(keysOf, p, i, j) {
        ChainOneOwner(keysOf, groups, keyToGroup, owner, p, i, j);
      }
    }
    forall i: nat | i < |keysOf|
      ensures InSome(groups, i)
    {
      assert owner[i] in groups && i in groups[owner[i]];
    }
  }

  /** Every live group id maps to itself, every mapped key points to a live group, and a key maps to
      a group exactly when one of its items carries the key. */
  ghost predicate KeysPointToCarriers(keysOf: seq<Keys>, groups: Groups, keyToGroup: map<string, string>) {
    && (forall g :: g in groups ==> g in keyToGroup && keyToGroup[g] == g)
    && (forall k :: k in keyToGroup ==> keyToGroup[k] in groups)
    && (forall k, g :: g in groups ==>
          ((k in keyToGroup && keyToGroup[k] == g) <==> SomeMemberCarries(keysOf, groups[g], k)))
  }

  lemma NothingMerged(keysOf: seq<Keys>)
    ensures Merged(keysOf, map[], map[], [])
  {}

  /** The whole merge loop. */
  method MergeAll(keysOf: seq<Keys>) returns (groups: Groups, keyToGroup: map<string, string>)
    requires forall i :: 0 <= i < |keysOf| ==> keysOf[i] != []
    ensures (groups, keyToGroup) == MergeOf(keysOf, |keysOf|)
    ensures Components(keysOf, groups) && KeysPointToCarriers(keysOf, groups, keyToGroup)
  {
    hide Merged, Added, Adds, Olds, IdFor, Components, KeysPointToCarriers;
    groups, keyToGroup := map[], map[];
    ghost var owner: seq<string> := [];
    NothingMerged(keysOf);
    for n := 0 to |keysOf|
      invariant |owner| == n && Merged(keysOf, groups, keyToGroup, owner)
      invariant (groups, keyToGroup) == MergeOf(keysOf, n)
    {
      groups, keyToGroup, owner := AddItem(keysOf, groups, keyToGroup, n, owner);
    }
    MergedIsComponents(keysOf, groups, keyToGroup, owner);
    MappedIffCarried(keysOf, groups, keyToGroup, owner);
  }

  ghost predicate SomeMemberCarries(keysOf: seq<Keys>, group: seq<nat>, k: string) {
    exists i :: i in group && i < |keysOf| && k in keysOf[i]
  }

  lemma MappedIffCarried(keysOf: seq<Keys>, groups: Groups, keyToGroup: map<string, string>, owner: seq<string>)
    requires |owner| == |keysOf| && Merged(keysOf, groups, keyToGroup, owner)
    ensures KeysPointToCarriers(keysOf, groups, keyToGroup)
  {
    hide SomeMemberCarries, Joined;
    forall k | k in keyToGroup
      ensures keyToGroup[k] in groups && SomeMemberCarries(keysOf, groups[keyToGroup[k]], k)
    {
      CarriedInGroup(keysOf, groups, keyToGroup, owner, k);
    }
    forall k, g | g in groups && SomeMemberCarries(keysOf, groups[g], k)
      ensures k in keyToGroup && keyToGroup[k] == g
    {
      CarriedByOwner(keysOf, groups, keyToGroup, owner, k, g);
    }
    hide Owned, Indexed;
  }

  lemma CarriedInGroup(keysOf: seq<Keys>, groups: Groups, keyToGroup: map<string, string>, owner: seq<string>,
                       k: string)
    requires Owned(groups, owner) && Carried(keysOf, keyToGroup, owner) && k in keyToGroup
    ensures keyToGroup[k] in groups && SomeMemberCarries(keysOf, groups[keyToGroup[k]], k)
  {
    var i :| Carries(keysOf, owner, i, k) && owner[i] == keyToGroup[k];
    assert i in groups[owner[i]];
  }

  lemma CarriedByOwner(keysOf: seq<Keys>, groups: Groups, keyToGroup: map<string, string>, owner: seq<string>,
                       k: string, g: string)
    requires g in groups && AllOwned(groups[g], owner, g) && CarriersMapped(keysOf, keyToGroup, owner)
    requires SomeMemberCarries(keysOf, groups[g], k)
    ensures k in keyToGroup && keyToGroup[k] == g
  {
    var i :| i in groups[g] && i < |keysOf| && k in keysOf[i];
    var x :| 0 <= x < |groups[g]| && groups[g][x] == i;
    assert Carries(keysOf, owner, i, k);
  }

  /* ---------- Independence of the input order ---------- */

  /** `order` rearranges 0..n-1: it has n values below n, all different. */
  ghost predicate Permutation(order: seq<nat>) {
    Distinct(order) && forall x :: 0 <= x < |order| ==> order[x] < |order|
  }

  ghost function Permuted(keysOf: seq<Keys>, order: seq<nat>): seq<Keys>
    requires |order| == |keysOf| && Permutation(order)
  {
    seq(|order|, x requires 0 <= x < |order| => keysOf[order[x]])
  }

  lemma InverseExists(order: seq<nat>) returns (inverse: seq<nat>)
    requires Permutation(order)
    ensures |inverse| == |order|
    ensures forall y :: 0 <= y < |order| ==> inverse[y] < |order| && order[inverse[y]] == y
  {
    inverse := [];
    while |inverse| < |order|
      invariant |inverse| <= |order|
      invariant forall y :: 0 <= y < |inverse| ==> inverse[y] < |order| && order[inverse[y]] == y
    {
      Covers(order, |inverse|);
      var x :| 0 <= x < |order| && order[x] == |inverse|;
      inverse := inverse + [x];
    }
  }

  /** A permutation meets every value. */
  lemma Covers(order: seq<nat>, y: nat)
    requires Permutation(order) && y < |order|
    ensures y in order
  {
    var values := Values(order);
    assert forall x :: x in values ==> x in Range(|order|);
    if y !in values {
      assert values <= Range(|order|) - {y};
      SubsetSize(values, Range(|order|) - {y});
    }
  }

  ghost function Values(s: seq<nat>): (r: set<nat>)
    ensures forall x :: x in r <==> x in s
    ensures Distinct(s) ==> |r| == |s|
  {
    if s == [] then {}
    else
      var n := |s| - 1;
      assert s == s[..n] + [s[n]];
      Values(s[..n]) + {s[n]}
  }

  /** Reordering the items does not change who is connected to whom. */
  lemma ConnectedPermuted(keysOf: seq<Keys>, order: seq<nat>, i: nat, j: nat)
    requires |order| == |keysOf| && Permutation(order) && i < |order| && j < |order|
    ensures Connected(Permuted(keysOf, order), i, j) <==> Connected(keysOf, order[i], order[j])
  {
    if Connected(Permuted(keysOf, order), i, j) {
      ConnectedRenamed(Permuted(keysOf, order), keysOf, order, i, j);
    }
    if Connected(keysOf, order[i], order[j]) {
      var inverse := InverseExists(order);
      ConnectedRenamed(keysOf, Permuted(keysOf, order), inverse, order[i], order[j]);
    }
  }

  /** So every group of one merge has the same members as a group of the merge of any reordering of
      the items. */
  lemma GroupsPermuted(keysOf: seq<Keys>, order: seq<nat>, groups: Groups, groups': Groups, g: string)
      returns (h: string)
    requires |order| == |keysOf| && Permutation(order)
    requires Components(keysOf, groups) && Components(Permuted(keysOf, order), groups') && g in groups'
    ensures h in groups && forall i :: 0 <= i < |order| ==> (i in groups'[g] <==> order[i] in groups[h])
  {
    var keysOf' := Permuted(keysOf, order);
    var first := groups'[g][0];
    assert InSome(groups, order[first]);
    h :| h in groups && order[first] in groups[h];
    var f :| 0 <= f < |groups[h]| && groups[h][f] == order[first];
    forall i | 0 <= i < |order|
      ensures i in groups'[g] <==> order[i] in groups[h]
    {
      ConnectedPermuted(keysOf, order, first, i);
      InGroupIff(keysOf', groups', g, 0, i);
      InGroupIff(keysOf, groups, h, f, order[i]);
    }
  }

  lemma InGroupIff(keysOf: seq<Keys>, groups: Groups, g: string, x: nat, i: nat)
    requires Components(keysOf, groups) && g in groups && x < |groups[g]| && i < |keysOf|
    ensures i in groups[g] <==> Connected(keysOf, groups[g][x], i)
  {
    assert InSome(groups, i);
    var h :| h in groups && i in groups[h];
    var y :| 0 <= y < |groups[h]| && groups[h][y] == i;
    if i in groups[g] {
      var z :| 0 <= z < |groups[g]| && groups[g][z] == i;
    }
  }
}
