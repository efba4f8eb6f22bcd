/** What the program asks of the library sort: a sorted rearrangement. */
module Sorting {
  import opened Keys

  ghost predicate Sorted(s: seq<Key>) {
    forall i, j :: 0 <= i < j < |s| ==> s[i] <= s[j]
  }

  function InsertSorted(x: Key, s: seq<Key>): (r: seq<Key>)
    ensures |r| == |s| + 1
  {
    if s == [] then [x] else if x <= s[0] then [x] + s else [s[0]] + InsertSorted(x, s[1..])
  }

  function Sort(s: seq<Key>): (r: seq<Key>)
    ensures |r| == |s|
  {
    if s == [] then [] else InsertSorted(s[0], Sort(s[1..]))
  }

  lemma {:induction false} InsertSortedElements(x: Key, s: seq<Key>)
    ensures multiset(InsertSorted(x, s)) == multiset(s) + multiset{x}
  {
    if s != [] && x > s[0] {
      InsertSortedElements(x, s[1..]);
      assert s == [s[0]] + s[1..];
    }
  }

  lemma SortedCons(x: Key, s: seq<Key>)
    requires Sorted(s) && forall k :: k in multiset(s) ==> x <= k
    ensures Sorted([x] + s)
  {
    forall j | 0 <= j < |s| ensures x <= s[j] {
      assert s[j] in multiset(s);
    }
  }

  lemma {:induction false} InsertSortedOk(x: Key, s: seq<Key>)
    requires Sorted(s)
    ensures Sorted(InsertSorted(x, s))
  {
    if s == [] {
    } else if x <= s[0] {
      assert forall k :: k in multiset(s) ==> k in s;
      SortedCons(x, s);
    } else {
      InsertSortedOk(x, s[1..]);
      InsertSortedElements(x, s[1..]);
      assert forall k :: k in multiset(s[1..]) ==> k in s[1..];
      SortedCons(s[0], InsertSorted(x, s[1..]));
    }
  }

  /** The sort is a sorted permutation of its input. */
  lemma {:induction false} SortOk(s: seq<Key>)
    ensures Sorted(Sort(s))
    ensures multiset(Sort(s)) == multiset(s)
  {
    if s == [] {
    } else {
      SortOk(s[1..]);
      InsertSortedOk(s[0], Sort(s[1..]));
      InsertSortedElements(s[0], Sort(s[1..]));
      assert s == [s[0]] + s[1..];
    }
  }

  lemma HeadAndTail(s: seq<Key>)
    requires Sorted(s) && s != []
    ensures s[0] in multiset(s) && forall k :: k in multiset(s) ==> s[0] <= k
    ensures multiset(s[1..]) == multiset(s) - multiset{s[0]}
  {
    assert s == [s[0]] + s[1..];
    assert forall k :: k in multiset(s) ==> k in s;
  }

  /** A sorted permutation is unique, so any correct sort computes Sort. */
  lemma {:induction false} SortUnique(a: seq<Key>, b: seq<Key>)
    requires Sorted(a) && Sorted(b)
    requires multiset(a) == multiset(b)
    ensures a == b
  {
    if a == [] {
      assert |multiset(b)| == 0;
    } else {
      assert a[0] in multiset(b);
      TailsAgree(a, b);
      SortUnique(a[1..], b[1..]);
      assert a == [a[0]] + a[1..] && b == [b[0]] + b[1..];
    }
  }

  lemma TailsAgree(a: seq<Key>, b: seq<Key>)
    requires Sorted(a) && Sorted(b) && a != [] && b != []
    requires multiset(a) == multiset(b)
    ensures a[0] == b[0] && multiset(a[1..]) == multiset(b[1..])
    ensures Sorted(a[1..]) && Sorted(b[1..])
  {
    HeadAndTail(a);
    HeadAndTail(b);
  }

  lemma SortMembers(s: seq<Key>)
    ensures forall k :: k in Sort(s) <==> k in s
    ensures KeySet(Sort(s)) == KeySet(s)
  {
    SortOk(s);
    forall k ensures k in Sort(s) <==> k in s {
      assert k in multiset(Sort(s)) <==> k in multiset(s);
    }
  }

  lemma MultisetTwice(s: seq<Key>, i: int, j: int)
    requires 0 <= i < j < |s| && s[i] == s[j]
    ensures multiset(s)[s[i]] >= 2
  {
    assert s == s[..j] + s[j..];
    assert s[i] == s[..j][i] && s[i] in s[..j];
    assert s[j] == s[j..][0] && s[j] in s[j..];
    assert multiset(s) == multiset(s[..j]) + multiset(s[j..]);
  }

  lemma {:induction false} DistinctMultiplicity(s: seq<Key>, k: Key)
    requires Distinct(s) && k != INVALID
    ensures multiset(s)[k] <= 1
  {
    if s != [] {
      var rest := s[1..];
      assert s == [s[0]] + rest;
      DistinctMultiplicity(rest, k);
      assert multiset(s) == multiset{s[0]} + multiset(rest);
    }
  }

  lemma SortDistinct(s: seq<Key>)
    requires Distinct(s)
    ensures Distinct(Sort(s))
  {
    SortOk(s);
    var t := Sort(s);
    DistinctSpread(t);
    forall i, j | 0 <= i < j < |t| && t[i] == t[j] ensures t[i] == INVALID {
      MultisetTwice(t, i, j);
      if t[i] != INVALID {
        DistinctMultiplicity(s, t[i]);
      }
    }
  }

  /** In a strictly sorted sequence the keys below position m are the first m. */
  lemma PrefixKeys(t: seq<Key>, m: nat)
    requires Sorted(t) && Distinct(t) && INVALID !in t && m < |t|
    ensures (set k | k in t && k < t[m]) == KeySet(t[..m])
  {
    DistinctSpread(t);
    forall k ensures k in t && k < t[m] <==> k in KeySet(t[..m]) {
      if k in t && k < t[m] {
        var j :| 0 <= j < |t| && t[j] == k;
        assert t[..m][j] == k;
      }
      if k in t[..m] {
        var j :| 0 <= j < m && t[j] == k;
        assert t[j] <= t[m] && t[j] != t[m];
      }
    }
  }

  /** In a full sequence of distinct keys, exactly m keys are below the one of
      rank m. */
  lemma RankCount(s: seq<Key>, m: nat)
    requires Distinct(s) && INVALID !in s && m < |s|
    ensures Sort(s)[m] in s
    ensures |set k | k in s && k < Sort(s)[m]| == m
  {
    SortOk(s);
    SortMembers(s);
    SortDistinct(s);
    var t := Sort(s);
    assert t[m] in t;
    PrefixKeys(t, m);
    DistinctPrefix(t, m);
    KeySetSize(t[..m]);
    assert forall k :: k in t[..m] ==> k in t;
    assert (set k | k in s && k < t[m]) == (set k | k in t && k < t[m]);
  }

  // ----- sorting (key, slot) pairs by key -----

  function Firsts(p: seq<(Key, nat)>): (r: seq<Key>)
    ensures |r| == |p|
    ensures forall i :: 0 <= i < |p| ==> r[i] == p[i].0
  {
    seq(|p|, i requires 0 <= i < |p| => p[i].0)
  }

  function InsertPair(x: (Key, nat), s: seq<(Key, nat)>): seq<(Key, nat)> {
    if s == [] then [x] else if x.0 <= s[0].0 then [x] + s else [s[0]] + InsertPair(x, s[1..])
  }

  function SortPairs(s: seq<(Key, nat)>): seq<(Key, nat)> {
    if s == [] then [] else InsertPair(s[0], SortPairs(s[1..]))
  }

  lemma FirstsCons(x: (Key, nat), s: seq<(Key, nat)>)
    ensures Firsts([x] + s) == [x.0] + Firsts(s)
    ensures multiset([x] + s) == multiset{x} + multiset(s)
  {}

  lemma {:induction false} InsertPairFirsts(x: (Key, nat), s: seq<(Key, nat)>)
    ensures Firsts(InsertPair(x, s)) == InsertSorted(x.0, Firsts(s))
    ensures multiset(InsertPair(x, s)) == multiset(s) + multiset{x}
  {
    if s == [] {
    } else if x.0 <= s[0].0 {
      FirstsCons(x, s);
    } else {
      InsertPairFirsts(x, s[1..]);
      assert s == [s[0]] + s[1..];
      FirstsCons(s[0], s[1..]);
      FirstsCons(s[0], InsertPair(x, s[1..]));
    }
  }

  /** Sorting pairs by key carries every slot number along with its key. */
  lemma {:induction false} SortPairsOk(s: seq<(Key, nat)>)
    ensures Firsts(SortPairs(s)) == Sort(Firsts(s))
    ensures multiset(SortPairs(s)) == multiset(s)
  {
    if s == [] {
    } else {
      SortPairsOk(s[1..]);
      InsertPairFirsts(s[0], SortPairs(s[1..]));
      assert s == [s[0]] + s[1..];
      assert Firsts(s)[1..] == Firsts(s[1..]);
    }
  }

  lemma WithoutOne<T>(s: seq<T>, i: nat)
    requires i < |s|
    ensures multiset(s) == multiset(Without(s, i)) + multiset{s[i]}
    ensures multiset(Without(s, i)) == multiset(s) - multiset{s[i]}
  {
    assert s == s[..i] + [s[i]] + s[i + 1..];
  }

  lemma FirstsWithout(s: seq<(Key, nat)>, i: nat)
    requires i < |s|
    ensures Firsts(Without(s, i)) == Without(Firsts(s), i)
  {}

  /** Rearranged pairs have rearranged keys. */
  lemma {:induction false} FirstsPermute(a: seq<(Key, nat)>, b: seq<(Key, nat)>)
    requires multiset(a) == multiset(b)
    ensures multiset(Firsts(a)) == multiset(Firsts(b))
    decreases |a|
  {
    if a == [] {
      assert |multiset(b)| == 0;
    } else {
      assert a[0] in multiset(b);
      var i :| 0 <= i < |b| && b[i] == a[0];
      WithoutOne(a, 0);
      WithoutOne(b, i);
      FirstsPermute(Without(a, 0), Without(b, i));
      FirstsWithout(a, 0);
      FirstsWithout(b, i);
      WithoutOne(Firsts(a), 0);
      WithoutOne(Firsts(b), i);
    }
  }
}
