/** Filtering, mapping, sorting and distinct keys, for lists of records. */
module Lists {

  function Filter<A(!new)>(s: seq<A>, keep: A -> bool): (r: seq<A>)
    ensures forall x :: x in r <==> x in s && keep(x)
  {
    if s == [] then []
    else
      assert s == s[..|s| - 1] + [s[|s| - 1]];
      Filter(s[..|s| - 1], keep) + (if keep(s[|s| - 1]) then [s[|s| - 1]] else [])
  }

  function Map<A, B>(s: seq<A>, f: A -> B): (r: seq<B>)
    ensures |r| == |s| && forall k :: 0 <= k < |s| ==> r[k] == f(s[k])
  {
    seq(|s|, k requires 0 <= k < |s| => f(s[k]))
  }

  ghost predicate DistinctBy<A(!new), K>(s: seq<A>, key: A -> K) {
    forall a, b :: 0 <= a < b < |s| ==> key(s[a]) != key(s[b])
  }

  lemma OnePlace<A(!new), K>(s: seq<A>, key: A -> K, i: nat, j: nat)
    requires DistinctBy(s, key) && i < |s| && j < |s| && key(s[i]) == key(s[j])
    ensures i == j
  {
  }

  /** Some record of the list has this key. */
  ghost predicate Keyed<A(!new), K>(s: seq<A>, key: A -> K, id: K) {
    exists k :: 0 <= k < |s| && key(s[k]) == id
  }

  lemma KeyedIn<A(!new), K>(s: seq<A>, key: A -> K, id: K)
    ensures Keyed(s, key, id) <==> exists x :: x in s && key(x) == id
  {
    if x :| x in s && key(x) == id {
      var k :| 0 <= k < |s| && s[k] == x;
    }
  }

  lemma {:induction false} FilterDistinct<A(!new), K>(s: seq<A>, keep: A -> bool, key: A -> K)
    requires DistinctBy(s, key)
    ensures DistinctBy(Filter(s, keep), key)
  {
    if s != [] {
      var before, last := s[..|s| - 1], s[|s| - 1];
      FilterDistinct(before, keep, key);
      var kept := Filter(before, keep);
      forall k | 0 <= k < |kept| ensures key(kept[k]) != key(last) {
        assert kept[k] in kept;
        var a :| 0 <= a < |before| && before[a] == kept[k];
        assert s[a] == before[a];
      }
    }
  }

  lemma ConcatDistinct<A(!new), K(!new)>(s: seq<A>, t: seq<A>, key: A -> K)
    ensures DistinctBy(s + t, key) <==>
            DistinctBy(s, key) && DistinctBy(t, key) && forall id :: Keyed(s, key, id) ==> !Keyed(t, key, id)
  {
    var u := s + t;
    if DistinctBy(u, key) {
      forall a, b | 0 <= a < b < |s| ensures key(s[a]) != key(s[b]) { assert u[a] == s[a] && u[b] == s[b]; }
      forall a, b | 0 <= a < b < |t| ensures key(t[a]) != key(t[b]) {
        assert u[|s| + a] == t[a] && u[|s| + b] == t[b];
      }
      forall a, b | 0 <= a < |s| && 0 <= b < |t| ensures key(s[a]) != key(t[b]) {
        assert u[a] == s[a] && u[|s| + b] == t[b];
      }
    } else {
      var a, b :| 0 <= a < b < |u| && key(u[a]) == key(u[b]);
      if b < |s| {
        assert s[a] == u[a] && s[b] == u[b];
      } else if a >= |s| {
        assert t[a - |s|] == u[a] && t[b - |s|] == u[b];
      } else {
        assert s[a] == u[a] && t[b - |s|] == u[b];
        assert Keyed(s, key, key(u[a])) && Keyed(t, key, key(u[a]));
      }
    }
  }

  /** Renaming the keys of a list without merging any of them keeps them distinct. */
  lemma MapDistinct<A(!new), B(!new), K>(s: seq<A>, f: A -> B, key: A -> K, renamed: B -> K)
    requires DistinctBy(s, key)
    requires forall a, b :: 0 <= a < b < |s| && key(s[a]) != key(s[b]) ==> renamed(f(s[a])) != renamed(f(s[b]))
    ensures DistinctBy(Map(s, f), renamed)
  {
  }

  // ----- Sorting -----

  /** Insertion in front of the first element that does not rank before `x`, and the stable sort
      built from it. */
  function Insert<A>(x: A, s: seq<A>, before: (A, A) -> bool): seq<A> {
    if s == [] || !before(s[0], x) then [x] + s else [s[0]] + Insert(x, s[1..], before)
  }

  function Sort<A>(s: seq<A>, before: (A, A) -> bool): seq<A> {
    if s == [] then [] else Insert(s[0], Sort(s[1..], before), before)
  }

  /** A strict order in which elements may tie. */
  ghost predicate Ranking<A(!new)>(before: (A, A) -> bool) {
    && (forall a, b :: before(a, b) ==> !before(b, a))
    && (forall a, b, c :: before(a, c) ==> before(a, b) || before(b, c))
  }

  ghost predicate Sorted<A(!new)>(s: seq<A>, before: (A, A) -> bool) {
    forall i, j :: 0 <= i < j < |s| ==> !before(s[j], s[i])
  }

  lemma {:induction false} InsertPermutes<A>(x: A, s: seq<A>, before: (A, A) -> bool)
    ensures multiset(Insert(x, s, before)) == multiset(s) + multiset{x}
  {
    if s != [] && before(s[0], x) {
      InsertPermutes(x, s[1..], before);
      assert s == [s[0]] + s[1..];
    } else {
      assert multiset([x] + s) == multiset{x} + multiset(s);
    }
  }

  lemma {:induction false} InsertSorts<A(!new)>(x: A, s: seq<A>, before: (A, A) -> bool)
    requires Ranking(before) && Sorted(s, before)
    ensures Sorted(Insert(x, s, before), before)
  {
    if s != [] && before(s[0], x) {
      var t := Insert(x, s[1..], before);
      InsertSorts(x, s[1..], before);
      InsertPermutes(x, s[1..], before);
      forall k | 0 <= k < |t| ensures !before(t[k], s[0]) {
        assert t[k] in multiset(t);
        if t[k] != x {
          assert t[k] in multiset(s[1..]);
          var i :| 0 <= i < |s[1..]| && s[1..][i] == t[k];
          assert s[i + 1] == t[k];
        }
      }
    }
  }

  lemma {:induction false} SortSorts<A(!new)>(s: seq<A>, before: (A, A) -> bool)
    requires Ranking(before)
    ensures Sorted(Sort(s, before), before) && multiset(Sort(s, before)) == multiset(s)
  {
    if s != [] {
      SortSorts(s[1..], before);
      InsertSorts(s[0], Sort(s[1..], before), before);
      InsertPermutes(s[0], Sort(s[1..], before), before);
      assert s == [s[0]] + s[1..];
    }
  }

  lemma SamePermutation<A>(s: seq<A>, t: seq<A>)
    requires multiset(s) == multiset(t)
    ensures |s| == |t| && forall x :: x in s <==> x in t
  {
    assert |multiset(s)| == |multiset(t)|;
    forall x ensures x in s <==> x in t {
      assert x in s <==> x in multiset(s);
      assert x in t <==> x in multiset(t);
    }
  }

  /** Keys that are distinct in a list are distinct in its permutations. */
  lemma PermutedDistinct<A(!new), K>(s: seq<A>, t: seq<A>, key: A -> K)
    requires DistinctBy(s, key) && multiset(t) == multiset(s)
    ensures DistinctBy(t, key)
  {
    SamePermutation(t, s);
    forall a, b | 0 <= a < b < |t| ensures key(t[a]) != key(t[b]) {
      assert t[a] in t && t[b] in t;
      var i :| 0 <= i < |s| && s[i] == t[a];
      var j :| 0 <= j < |s| && s[j] == t[b];
      OnePlaceOnce(s, key, i);
      TwoPlaces(t, a, b);
    }
  }

  lemma TwoPlaces<A>(t: seq<A>, a: nat, b: nat)
    requires a < b < |t|
    ensures t[a] == t[b] ==> multiset(t)[t[a]] >= 2
  {
    assert t == t[..a] + [t[a]] + t[a + 1..b] + [t[b]] + t[b + 1..];
  }

  lemma OnePlaceOnce<A(!new), K>(s: seq<A>, key: A -> K, i: nat)
    requires DistinctBy(s, key) && i < |s|
    ensures multiset(s)[s[i]] == 1
  {
    assert s == s[..i] + [s[i]] + s[i + 1..];
    assert forall k :: 0 <= k < |s| && s[k] == s[i] ==> k == i;
    assert s[i] !in s[..i] && s[i] !in s[i + 1..];
  }
}
