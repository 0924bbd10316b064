/** Lexicographic order on tuples and strings, and the stable sort and first maximum built on it. */
module Order {

  /** Tuples of integers and strings compare as sequences of numbers. */
  predicate Leq(a: seq<int>, b: seq<int>) {
    a == [] || (b != [] && (a[0] < b[0] || (a[0] == b[0] && Leq(a[1..], b[1..]))))
  }

  function Codes(s: string): (r: seq<int>)
    ensures |r| == |s| && forall i :: 0 <= i < |s| ==> r[i] == s[i] as int
  {
    seq(|s|, i requires 0 <= i < |s| => s[i] as int)
  }

  lemma CodesInjective(s: string, t: string)
    requires Codes(s) == Codes(t)
    ensures s == t
  {
    forall i | 0 <= i < |s|
      ensures s[i] == t[i]
    {
      assert Codes(s)[i] == Codes(t)[i];
    }
  }

  lemma LeqTotal(a: seq<int>, b: seq<int>)
    ensures Leq(a, b) || Leq(b, a)
  {}

  lemma LeqAntisymmetric(a: seq<int>, b: seq<int>)
    requires Leq(a, b) && Leq(b, a)
    ensures a == b
  {
    if a != [] {
      LeqAntisymmetric(a[1..], b[1..]);
      assert a == [a[0]] + a[1..] && b == [b[0]] + b[1..];
    }
  }

  lemma LeqTransitive(a: seq<int>, b: seq<int>, c: seq<int>)
    requires Leq(a, b) && Leq(b, c)
    ensures Leq(a, c)
  {}

  predicate Before<T>(x: T, y: T, key: T -> seq<int>, descending: bool) {
    if descending then Leq(key(y), key(x)) else Leq(key(x), key(y))
  }

  ghost predicate Sorted<T>(s: seq<T>, key: T -> seq<int>, descending: bool) {
    forall i, j :: 0 <= i < j < |s| ==> Before(s[i], s[j], key, descending)
  }

  /** Insertion before the equal keys: the stable sort of either direction. */
  function Insert<T>(x: T, s: seq<T>, key: T -> seq<int>, descending: bool): seq<T> {
    if s == [] || Before(x, s[0], key, descending) then [x] + s
    else [s[0]] + Insert(x, s[1..], key, descending)
  }

  function SortBy<T>(s: seq<T>, key: T -> seq<int>, descending: bool): seq<T> {
    if s == [] then [] else Insert(s[0], SortBy(s[1..], key, descending), key, descending)
  }

  lemma BeforeTotal<T>(x: T, y: T, key: T -> seq<int>, descending: bool)
    ensures Before(x, y, key, descending) || Before(y, x, key, descending)
  {
    LeqTotal(key(x), key(y));
  }

  lemma BeforeTransitive<T>(x: T, y: T, z: T, key: T -> seq<int>, descending: bool)
    requires Before(x, y, key, descending) && Before(y, z, key, descending)
    ensures Before(x, z, key, descending)
  {
    if descending {
      LeqTransitive(key(z), key(y), key(x));
    } else {
      LeqTransitive(key(x), key(y), key(z));
    }
  }

  lemma InsertElements<T>(x: T, s: seq<T>, key: T -> seq<int>, descending: bool)
    ensures multiset(Insert(x, s, key, descending)) == multiset(s) + multiset{x}
  {
    hide Before;
    if s != [] && !Before(x, s[0], key, descending) {
      InsertElements(x, s[1..], key, descending);
      assert s == [s[0]] + s[1..];
    }
  }

  lemma InsertMember<T>(x: T, s: seq<T>, key: T -> seq<int>, descending: bool, y: T)
    ensures y in Insert(x, s, key, descending) <==> y == x || y in s
  {
    InsertElements(x, s, key, descending);
    assert y in Insert(x, s, key, descending) <==> y in multiset(Insert(x, s, key, descending));
  }

  lemma {:induction false} InsertSorts<T>(x: T, s: seq<T>, key: T -> seq<int>, descending: bool)
    requires Sorted(s, key, descending)
    ensures Sorted(Insert(x, s, key, descending), key, descending)
  {
    hide Before;
    if s == [] {
    } else if Before(x, s[0], key, descending) {
      forall j | 0 < j < |s|
        ensures Before(x, s[j], key, descending)
      {
        BeforeTransitive(x, s[0], s[j], key, descending);
      }
    } else {
      var rest := Insert(x, s[1..], key, descending);
      InsertSorts(x, s[1..], key, descending);
      BeforeTotal(x, s[0], key, descending);
      forall j | 0 <= j < |rest|
        ensures Before(s[0], rest[j], key, descending)
      {
        InsertMember(x, s[1..], key, descending, rest[j]);
        assert rest[j] in rest;
      }
    }
  }

  lemma EmptySorted<T>(key: T -> seq<int>, descending: bool)
    ensures Sorted([], key, descending)
  {}

  /** A sort returns the same elements, in order. */
  lemma {:induction false} SortBySorts<T>(s: seq<T>, key: T -> seq<int>, descending: bool)
    ensures Sorted(SortBy(s, key, descending), key, descending)
    ensures multiset(SortBy(s, key, descending)) == multiset(s)
    ensures |SortBy(s, key, descending)| == |s|
  {
    hide Insert, Before, Sorted;
    assert Sorted([], key, descending) by {
      EmptySorted(key, descending);
    }
    if s != [] {
      SortBySorts(s[1..], key, descending);
      InsertSorts(s[0], SortBy(s[1..], key, descending), key, descending);
      InsertElements(s[0], SortBy(s[1..], key, descending), key, descending);
      assert s == [s[0]] + s[1..];
      assert |multiset(SortBy(s, key, descending))| == |multiset(s)|;
    }
  }

  /** Elements with equal keys follow one another in the order of `birth`. */
  ghost predicate Stable<T>(s: seq<T>, key: T -> seq<int>, birth: T -> int) {
    forall i, j :: 0 <= i < j < |s| && key(s[i]) == key(s[j]) ==> birth(s[i]) < birth(s[j])
  }

  lemma {:induction false} InsertStable<T>(x: T, s: seq<T>, key: T -> seq<int>, descending: bool, birth: T -> int)
    requires Stable(s, key, birth) && forall y :: y in s ==> birth(x) < birth(y)
    ensures Stable(Insert(x, s, key, descending), key, birth)
  {
    if s != [] && !Before(x, s[0], key, descending) {
      InsertStable(x, s[1..], key, descending, birth);
      LeqTotal(key(x), key(x));
      var rest := Insert(x, s[1..], key, descending);
      hide Leq, Insert;
      forall j | 0 <= j < |rest| && key(rest[j]) == key(s[0])
        ensures birth(s[0]) < birth(rest[j])
      {
        InsertMember(x, s[1..], key, descending, rest[j]);
        assert rest[j] in rest;
        if rest[j] != x {
          var i :| 0 <= i < |s[1..]| && s[1..][i] == rest[j];
          assert s[i + 1] == rest[j];
        }
      }
    }
  }

  /** Sorting keeps the order of elements with equal keys, in either direction. */
  lemma {:induction false} SortStable<T>(s: seq<T>, key: T -> seq<int>, descending: bool, birth: T -> int)
    requires forall i, j :: 0 <= i < j < |s| ==> birth(s[i]) < birth(s[j])
    ensures Stable(SortBy(s, key, descending), key, birth)
  {
    if s != [] {
      var sorted := SortBy(s[1..], key, descending);
      SortStable(s[1..], key, descending, birth);
      SortBySorts(s[1..], key, descending);
      forall y | y in sorted
        ensures birth(s[0]) < birth(y)
      {
        assert y in multiset(sorted);
        var i :| 0 <= i < |s[1..]| && s[1..][i] == y;
        assert s[i + 1] == y;
      }
      InsertStable(s[0], sorted, key, descending, birth);
    }
  }

  /** Python's `max(s, key=...)`: the first of the elements with the greatest key. */
  function FirstMax<T>(s: seq<T>, key: T -> seq<int>): (r: nat)
    requires s != []
    ensures r < |s|
    ensures forall i :: 0 <= i < |s| ==> Leq(key(s[i]), key(s[r]))
    ensures forall i :: 0 <= i < r ==> key(s[i]) != key(s[r])
  {
    var n := |s| - 1;
    if n == 0 then
      LeqTotal(key(s[0]), key(s[0]));
      0
    else
      var m := FirstMax(s[..n], key);
      assert forall i :: 0 <= i < n ==> s[..n][i] == s[i];
      LeqTotal(key(s[n]), key(s[n]));
      if Leq(key(s[n]), key(s[m])) then m
      else
        LeqTotal(key(s[n]), key(s[m]));
        assert forall i {:trigger key(s[i])} :: 0 <= i < n ==> Leq(key(s[i]), key(s[n])) by {
          forall i | 0 <= i < n
            ensures Leq(key(s[i]), key(s[n]))
          {
            LeqTransitive(key(s[i]), key(s[m]), key(s[n]));
          }
        }
        n
  }

  /** The sorted, duplicate-free list of some strings. */
  function SortedUnique(s: seq<string>): seq<string> {
    if s == [] then []
    else var rest := SortedUnique(s[1..]);
      if s[0] in rest then rest else Insert(s[0], rest, Codes, false)
  }

  lemma {:induction false} SortedUniqueIs(s: seq<string>)
    ensures var r := SortedUnique(s);
            && Sorted(r, Codes, false)
            && (forall x :: x in r <==> x in s)
            && (forall i, j :: 0 <= i < j < |r| ==> r[i] != r[j])
  {
    if s != [] {
      var rest := SortedUnique(s[1..]);
      SortedUniqueIs(s[1..]);
      if s[0] !in rest {
        InsertSorts(s[0], rest, Codes, false);
        InsertDistinct(s[0], rest);
      }
      assert s == [s[0]] + s[1..];
    }
  }

  lemma InsertDistinct(x: string, s: seq<string>)
    requires x !in s && forall i, j :: 0 <= i < j < |s| ==> s[i] != s[j]
    ensures var r := Insert(x, s, Codes, false);
            && (forall y :: y in r <==> y == x || y in s)
            && (forall i, j :: 0 <= i < j < |r| ==> r[i] != r[j])
  {
    if s != [] && !Before(x, s[0], Codes, false) {
      InsertDistinct(x, s[1..]);
      assert forall j :: 0 <= j < |s[1..]| ==> s[1..][j] == s[j + 1];
      assert s[0] !in Insert(x, s[1..], Codes, false);
    }
  }

  lemma TailsPermute<T>(s: seq<T>, t: seq<T>)
    requires s != [] && t != [] && s[0] == t[0] && multiset(s) == multiset(t)
    ensures multiset(s[1..]) == multiset(t[1..])
  {
    assert s == [s[0]] + s[1..] && t == [t[0]] + t[1..];
    assert multiset(s[1..]) == multiset(s) - multiset{s[0]};
    assert multiset(t[1..]) == multiset(t) - multiset{t[0]};
  }

  /** Strings have only one sorted order. */
  lemma {:induction false} SortedUniquely(s: seq<string>, t: seq<string>)
    requires multiset(s) == multiset(t) && Sorted(s, Codes, false) && Sorted(t, Codes, false)
    ensures s == t
  {
    assert |multiset(s)| == |s| && |multiset(t)| == |t|;
    if s != [] {
      LeastFirst(s, t);
      LeastFirst(t, s);
      LeqAntisymmetric(Codes(s[0]), Codes(t[0]));
      CodesInjective(s[0], t[0]);
      TailsPermute(s, t);
      hide Codes;
      SortedUniquely(s[1..], t[1..]);
      assert s == [s[0]] + s[1..] && t == [t[0]] + t[1..];
    }
  }

  lemma LeastFirst(s: seq<string>, t: seq<string>)
    requires s != [] && t != [] && multiset(s) == multiset(t) && Sorted(s, Codes, false)
    ensures Leq(Codes(s[0]), Codes(t[0]))
  {
    hide Codes, Leq;
    assert t[0] in multiset(t);
    assert t[0] in s;
    var i :| 0 <= i < |s| && s[i] == t[0];
    if i == 0 {
      LeqTotal(Codes(s[0]), Codes(s[0]));
    } else {
      assert Before(s[0], s[i], Codes, false);
    }
  }
}
