/** The vocabulary every other module shares: 64-bit keys and values, the key
    that marks an empty slot, and the usual option type. */
module Keys {

  type Key = k: int | 0 <= k < 0x1_0000_0000_0000_0000

  type Value = v: int | 0 <= v < 0x1_0000_0000_0000_0000

  // The placeholder stored in empty slots.  It is the largest key, so it is
  // also the exclusive upper fence of a whole tree.
  const INVALID: Key := 0xFFFF_FFFF_FFFF_FFFF

  const MIN_KEY: Key := 0

  // Machine integers: 2^32, 2^64 and the range of int.
  const U32 := 0x1_0000_0000
  const U64 := 0x1_0000_0000_0000_0000
  const INT_MIN := -0x8000_0000
  const INT_MAX := 0x7FFF_FFFF

  type Byte = b: int | 0 <= b < 256

  type Pos = x: nat | x > 0 witness 1

  datatype Option<+T> = None | Some(value: T)

  function Min(a: int, b: int): int {
    if a <= b then a else b
  }

  function Max(a: int, b: int): int {
    if a <= b then b else a
  }

  function Without<T>(s: seq<T>, i: nat): seq<T>
    requires i < |s|
  {
    s[..i] + s[i + 1..]
  }

  /** Union of the keys of a sequence, empty slots left out. */
  function KeySet(keys: seq<Key>): set<Key> {
    set k | k in keys && k != INVALID
  }

  /** First position of k, or |keys| when k is absent. */
  function First(keys: seq<int>, k: int): (i: nat)
    ensures i <= |keys|
    ensures i < |keys| ==> keys[i] == k
    ensures forall j :: 0 <= j < i ==> keys[j] != k
  {
    if |keys| == 0 then 0 else if keys[0] == k then 0 else
      var i := First(keys[1..], k);
      assert forall j :: 0 <= j < i + 1 ==> keys[j] == if j == 0 then keys[0] else keys[1..][j - 1];
      i + 1
  }

  /** No valid key sits in two slots. */
  ghost predicate Distinct(keys: seq<Key>) {
    |keys| == 0 || ((keys[0] == INVALID || keys[0] !in keys[1..]) && Distinct(keys[1..]))
  }

  ghost predicate Spread(keys: seq<Key>) {
    forall i, j :: 0 <= i < j < |keys| && keys[i] == keys[j] ==> keys[i] == INVALID
  }

  lemma {:induction false} DistinctSpread(keys: seq<Key>)
    ensures Distinct(keys) <==> Spread(keys)
  {
    if |keys| > 0 {
      var rest := keys[1..];
      DistinctSpread(rest);
      if Spread(keys) {
        forall i, j | 0 <= i < j < |rest| && rest[i] == rest[j] ensures rest[i] == INVALID {
          assert keys[i + 1] == keys[j + 1];
        }
      }
      if Distinct(keys) {
        forall i, j | 0 <= i < j < |keys| && keys[i] == keys[j] ensures keys[i] == INVALID {
          assert keys[j] == rest[j - 1];
          if i > 0 { assert keys[i] == rest[i - 1]; }
        }
      }
    }
  }

  /** In distinct keys, a valid key is first found where it is. */
  lemma FirstOf(keys: seq<Key>, j: nat)
    requires Distinct(keys) && j < |keys| && keys[j] != INVALID
    ensures First(keys, keys[j]) == j
  {
    DistinctSpread(keys);
  }

  lemma DistinctPrefix(keys: seq<Key>, m: nat)
    requires Distinct(keys) && m <= |keys|
    ensures Distinct(keys[..m])
  {
    DistinctSpread(keys);
    DistinctSpread(keys[..m]);
  }

  lemma KeySetCons(x: Key, rest: seq<Key>)
    ensures KeySet([x] + rest) == if x == INVALID then KeySet(rest) else {x} + KeySet(rest)
  {
    forall k ensures k in [x] + rest <==> k == x || k in rest {}
  }

  lemma {:induction false} KeySetSize(keys: seq<Key>)
    requires Distinct(keys)
    ensures |KeySet(keys)| <= |keys|
    ensures INVALID !in keys <==> |KeySet(keys)| == |keys|
  {
    if |keys| == 0 {
      assert KeySet(keys) == {};
    } else {
      var x, rest := keys[0], keys[1..];
      assert keys == [x] + rest;
      KeySetSize(rest);
      KeySetCons(x, rest);
      assert INVALID in keys <==> x == INVALID || INVALID in rest;
    }
  }

  lemma SubsetSize<T>(a: set<T>, b: set<T>)
    requires a <= b
    ensures |a| <= |b|
    ensures |b - a| == |b| - |a|
  {
    assert b == a + (b - a);
    assert a !! (b - a);
  }
}
