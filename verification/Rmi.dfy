/** The two-layer index (rmi_2.hh, dispatcher.hh): the first layer picks the
    model of a key; every stored key is dispatched to the trainer of its model. */
module Rmi {
  import opened Keys
  import opened Store
  import opened TreeInner
  import opened XTree
  import opened TreeIter
  import opened Trainer

  // ---------- the dispatcher ----------

  /** What the first layer predicts, scaled to the number of models.  max is the
      number of keys it was trained with. */
  function Dispatch(ml: Key -> real, num: nat, max: nat, k: Key): int {
    var res := if ml(k) < 0.0 then 0.0 else ml(k);
    if res >= max as real then num - 1 else (res / (max as real) * (num as real)).Floor
  }

  lemma ScaledBelow(res: real, max: real, num: real)
    requires 0.0 <= res < max && num > 0.0
    ensures 0.0 <= res / max * num < num
  {
    assert res / max < 1.0;
    assert res / max >= 0.0;
    assert (1.0 - res / max) * num > 0.0;
  }

  lemma FloorScaled(res: real, max: real, num: real, d: int)
    requires 0.0 <= res < max && num > 0.0 && d == (res / max * num).Floor
    ensures d as real * max <= res * num < (d as real + 1.0) * max
  {
    var x := res / max * num;
    assert x * max == res * num by {
      assert (res / max) * max == res;
      assert x * max == ((res / max) * max) * num;
    }
    ScaledOrder(d as real, x, max);
    ScaledOrder(x, d as real + 1.0, max);
  }

  lemma ScaledOrder(a: real, b: real, m: real)
    requires a <= b && m > 0.0
    ensures a * m <= b * m && (a < b ==> a * m < b * m)
  {
    assert (b - a) * m == b * m - a * m;
  }

  /** Which model a prediction leads to: a prediction of y among max keys is model
      d of num if y * num is between d * max and (d + 1) * max; what lies outside
      goes to the first or the last model. */
  lemma DispatchScales(ml: Key -> real, num: nat, max: nat, k: Key)
    requires num > 0
    ensures var d, y := Dispatch(ml, num, max, k), ml(k);
      && (0.0 <= y < max as real ==> d as real * max as real <= y * num as real < (d as real + 1.0) * max as real)
      && (y < 0.0 && max > 0 ==> d == 0)
      && (y >= max as real || max == 0 ==> d == num - 1)
  {
    var y := ml(k);
    if 0.0 <= y < max as real {
      FloorScaled(y, max as real, num as real, Dispatch(ml, num, max, k));
    } else if y < 0.0 && max > 0 {
      assert 0.0 / (max as real) * (num as real) == 0.0;
    }
  }

  /** Every prediction is the number of a model. */
  lemma DispatchInRange(ml: Key -> real, num: nat, max: nat, k: Key)
    requires num > 0
    ensures 0 <= Dispatch(ml, num, max, k) < num
  {
    var res := if ml(k) < 0.0 then 0.0 else ml(k);
    if res < max as real {
      ScaledBelow(res, max as real, num as real);
    }
  }

  lemma ScaledMonotone(a: real, b: real, max: real, num: real)
    requires 0.0 <= a <= b && max > 0.0 && num > 0.0
    ensures a / max * num <= b / max * num
  {
    var x, y := a / max, b / max;
    assert (y - x) * max == b - a;
    PositiveFactor(y - x, max);
    assert (y - x) * num >= 0.0;
  }

  lemma PositiveFactor(d: real, m: real)
    requires m > 0.0 && d * m >= 0.0
    ensures d >= 0.0
  {}

  /** A first layer that does not fall dispatches in the order of the keys. */
  lemma DispatchMonotone(ml: Key -> real, num: nat, max: nat, a: Key, b: Key)
    requires num > 0 && ml(a) <= ml(b)
    ensures Dispatch(ml, num, max, a) <= Dispatch(ml, num, max, b)
  {
    DispatchInRange(ml, num, max, a);
    var x, y := if ml(a) < 0.0 then 0.0 else ml(a), if ml(b) < 0.0 then 0.0 else ml(b);
    if y < max as real {
      ScaledMonotone(x, y, max as real, num as real);
    }
  }

  /** The model of a key, among num of them. */
  function Select(ml: Key -> real, num: nat, max: nat, k: Key): (m: nat)
    requires num > 0
    ensures m < num
  {
    DispatchInRange(ml, num, max, k);
    Dispatch(ml, num, max, k)
  }

  lemma ClampedScales(scaled: real, max: real, d: nat, models: nat)
    requires max >= 0.0 && d >= models
    ensures d as real * max <= scaled ==> models as real * max <= scaled
  {
    if max > 0.0 {
      ScaledOrder(models as real, d as real, max);
    }
  }

  method SelectSecModel(ml: Key -> real, dispatchNum: nat, upBound: nat, models: nat, k: Key) returns (m: nat)
    requires dispatchNum > 0 && models > 0
    ensures m < models
    ensures models == dispatchNum ==> m == Select(ml, dispatchNum, upBound, k)
    ensures var y, num, max := ml(k), dispatchNum as real, upBound as real;
      && (0.0 <= y < max ==>
          if m < models - 1 || y * num < models as real * max then m as real * max <= y * num < (m as real + 1.0) * max
          else m == models - 1)
      && (y < 0.0 && upBound > 0 ==> m == 0)
      && (y >= max || upBound == 0 ==> m == if dispatchNum <= models then dispatchNum - 1 else models - 1)
  {
    var res := ml(k);
    if res < 0.0 {
      res := 0.0;
    }
    if res >= upBound as real {
      res := (dispatchNum - 1) as real;
    } else {
      ScaledBelow(res, upBound as real, dispatchNum as real);
      res := res / (upBound as real) * (dispatchNum as real);
    }
    m := res.Floor;
    DispatchInRange(ml, dispatchNum, upBound, k);
    DispatchScales(ml, dispatchNum, upBound, k);
    assert m == Dispatch(ml, dispatchNum, upBound, k);
    if m >= models {
      ClampedScales(ml(k) * dispatchNum as real, upBound as real, m, models);
      m := models - 1;
    }
  }

  // ---------- dispatching keys to trainers ----------

  datatype Range = Range(lo: Key, hi: Key, need: bool)

  /** The trainer of model m after the given keys have been dispatched: its range
      is the tightest one around its own keys. */
  ghost predicate Ranged(r: Range, keys: set<Key>, sel: Key -> nat, m: nat) {
    && (forall k :: k in keys && sel(k) == m ==> r.lo <= k <= r.hi && r.need)
    && (r.need ==> r.lo in keys && r.hi in keys && sel(r.lo) == m && sel(r.hi) == m)
    && (!r.need ==> r.lo == INVALID && r.hi == MIN_KEY)
  }

  function Grown(r: Range, k: Key): Range {
    Range(Min(r.lo, k), Max(r.hi, k), true)
  }

  lemma RangedGrows(r: Range, keys: set<Key>, sel: Key -> nat, m: nat, k: Key)
    requires Ranged(r, keys, sel, m)
    ensures Ranged(if sel(k) == m then Grown(r, k) else r, keys + {k}, sel, m)
  {}

  function Selector(ml: Key -> real, num: nat, max: nat): Key -> nat
    requires num > 0
  {
    (k: Key) => Select(ml, num, max, k)
  }

  /** On these keys the first layer does not fall. */
  ghost predicate NotFalling(ml: Key -> real, keys: set<Key>) {
    forall x, y {:trigger ml(x), ml(y)} :: x in keys && y in keys && x <= y ==> ml(x) <= ml(y)
  }

  /** For a first layer that does not fall on the keys, the range of a lower
      model ends before that of a higher one begins. */
  lemma RangesApart(a: Range, b: Range, keys: set<Key>, ml: Key -> real, num: nat, max: nat, i: nat, j: nat)
    requires num > 0 && NotFalling(ml, keys) && i < j && a.need && b.need
    requires Ranged(a, keys, Selector(ml, num, max), i) && Ranged(b, keys, Selector(ml, num, max), j)
    ensures a.hi < b.lo
  {
    if b.lo <= a.hi {
      assert ml(b.lo) <= ml(a.hi);
      DispatchMonotone(ml, num, max, b.lo, a.hi);
      assert false;
    }
  }

  function RangeOf(t: XMLTrainer): Range
    reads t
  {
    Range(t.startKey, t.endKey, t.NeedTrain())
  }

  /** A trainer that is right about the keys dispatched so far. */
  ghost predicate Right(t: XMLTrainer, keys: set<Key>, sel: Key -> nat, m: nat)
    reads t
  {
    t.lWatermark <= t.hWatermark && Ranged(RangeOf(t), keys, sel, m)
  }

  predicate Other(a: XMLTrainer, b: XMLTrainer) {
    a != b
  }

  /** The trainers of a two-layer index, one a model. */
  ghost predicate Trainers(ts: seq<XMLTrainer>, keys: set<Key>, sel: Key -> nat)
    reads ts
  {
    && (forall i, j {:trigger Other(ts[i], ts[j])} :: 0 <= i < j < |ts| ==> Other(ts[i], ts[j]))
    && (forall m {:trigger Right(ts[m], keys, sel, m)} :: 0 <= m < |ts| ==> Right(ts[m], keys, sel, m))
  }

  /** The trained ranges are disjoint and in the order of their models. */
  ghost predicate InModelOrder(ts: seq<XMLTrainer>)
    reads ts
  {
    forall i, j {:trigger RangeOf(ts[i]), RangeOf(ts[j])} ::
      0 <= i < j < |ts| && RangeOf(ts[i]).need && RangeOf(ts[j]).need ==>
        RangeOf(ts[i]).hi < RangeOf(ts[j]).lo
  }

  lemma TrainersApart(ts: seq<XMLTrainer>, keys: set<Key>, ml: Key -> real, max: nat)
    requires |ts| > 0 && Trainers(ts, keys, Selector(ml, |ts|, max)) && NotFalling(ml, keys)
    ensures InModelOrder(ts)
  {
    var sel := Selector(ml, |ts|, max);
    forall i, j | 0 <= i < j < |ts| && RangeOf(ts[i]).need && RangeOf(ts[j]).need
      ensures RangeOf(ts[i]).hi < RangeOf(ts[j]).lo
    {
      assert Right(ts[i], keys, sel, i) && Right(ts[j], keys, sel, j);
      RangesApart(RangeOf(ts[i]), RangeOf(ts[j]), keys, ml, |ts|, max, i, j);
    }
  }

  method NewTrainers(num: nat, ghost sel: Key -> nat) returns (ts: seq<XMLTrainer>)
    ensures |ts| == num && fresh(ts) && Trainers(ts, {}, sel)
  {
    ts := [];
    while |ts| < num
      invariant |ts| <= num && fresh(ts) && Trainers(ts, {}, sel)
    {
      var t := new XMLTrainer();
      assert Right(t, {}, sel, |ts|);
      ts := ts + [t];
    }
  }

  /** Give one key to its trainer. */
  method DispatchKey(ts: seq<XMLTrainer>, k: Key, m: nat, ghost keys: set<Key>, ghost sel: Key -> nat)
    requires Trainers(ts, keys, sel) && m == sel(k) < |ts|
    modifies ts
    ensures Trainers(ts, keys + {k}, sel)
  {
    ghost var before := seq(|ts|, i requires 0 <= i < |ts| reads ts => RangeOf(ts[i]));
    assert forall i :: 0 <= i < |ts| ==> Right(ts[i], keys, sel, i);
    ts[m].UpdateKey(k);
    forall i | 0 <= i < |ts| ensures Right(ts[i], keys + {k}, sel, i) {
      assert Other(ts[Min(i, m)], ts[Max(i, m)]) || i == m;
      RangedGrows(before[i], keys, sel, i, k);
    }
  }

  /** Dispatch every key of the tree, in the order of the slots. */
  method DispatchKeysToTrainers(kv: XTree, ml: Key -> real, num: nat, upBound: nat, ghost st: State)
    returns (ts: seq<XMLTrainer>)
    requires kv.Valid() && kv.root != Null && kv.state == st && WellFormed(st, kv.n) && num > 0
    ensures |ts| == num && fresh(ts)
    ensures Trainers(ts, Pairs(st, kv.n).Keys, Selector(ml, num, upBound))
    ensures NotFalling(ml, Pairs(st, kv.n).Keys) ==> InModelOrder(ts)
  {
    var it := new LeafCursor(kv, false);
    WalkComplete(st, kv.n, false);
    ghost var all := ItemsFrom(StoreTips(st), false, 0);
    ts := NewTrainers(num, Selector(ml, num, upBound));
    DispatchAll(it, ts, ml, upBound, all);
    if NotFalling(ml, Pairs(st, kv.n).Keys) {
      TrainersApart(ts, Pairs(st, kv.n).Keys, ml, upBound);
    }
  }

  /** The state of the dispatching loop after i keys. */
  ghost predicate Dispatching(it: LeafCursor, ts: seq<XMLTrainer>, sel: Key -> nat, all: seq<Item>, i: nat)
    reads it, it.fp, ts
  {
    it.Valid() && i <= |all| && it.Rest() == all[i..] && Trainers(ts, KeysOf(all[..i]), sel)
  }

  method DispatchAll(it: LeafCursor, ts: seq<XMLTrainer>, ml: Key -> real, upBound: nat, ghost all: seq<Item>)
    requires |ts| > 0 && it.Valid() && it.Rest() == all && Trainers(ts, {}, Selector(ml, |ts|, upBound))
    requires forall t :: t in ts ==> t !in it.fp
    modifies it, ts
    ensures Trainers(ts, KeysOf(all), Selector(ml, |ts|, upBound))
  {
    ghost var i := 0;
    assert KeysOf(all[..0]) == {};
    var more := it.HasNext();
    while more
      invariant Dispatching(it, ts, Selector(ml, |ts|, upBound), all, i) && it.fp == old(it.fp)
      invariant more == (i < |all|)
      decreases |all| - i
    {
      more := DispatchNext(it, ts, ml, upBound, all, i);
      i := i + 1;
    }
    assert all[..i] == all;
  }

  method DispatchNext(it: LeafCursor, ts: seq<XMLTrainer>, ml: Key -> real, upBound: nat, ghost all: seq<Item>,
                      ghost i: nat)
    returns (more: bool)
    requires |ts| > 0 && Dispatching(it, ts, Selector(ml, |ts|, upBound), all, i) && i < |all|
    requires forall t :: t in ts ==> t !in it.fp
    modifies it, ts
    ensures Dispatching(it, ts, Selector(ml, |ts|, upBound), all, i + 1) && it.fp == old(it.fp)
    ensures more == (i + 1 < |all|)
  {
    var k := it.CurKey();
    var m := SelectSecModel(ml, |ts|, upBound, |ts|, k);
    KeysMore(all, i);
    DispatchKey(ts, k, m, KeysOf(all[..i]), Selector(ml, |ts|, upBound));
    it.Next();
    more := it.HasNext();
  }

  lemma KeysMore(items: seq<Item>, i: nat)
    requires i < |items|
    ensures KeysOf(items[..i + 1]) == KeysOf(items[..i]) + {items[i].key}
  {
    var a := items[..i + 1];
    forall k ensures k in KeysOf(a) <==> k in KeysOf(items[..i]) + {items[i].key} {
      if k in KeysOf(a) {
        var j :| 0 <= j < i + 1 && a[j].key == k;
        assert j < i ==> items[..i][j].key == k;
      }
      if k in KeysOf(items[..i]) {
        var j :| 0 <= j < i && items[..i][j].key == k;
        assert a[j].key == k;
      }
      assert a[i].key == items[i].key;
    }
  }
}
