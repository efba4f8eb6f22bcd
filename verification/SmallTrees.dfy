/** Two short runs of inserts, with two and with three slots a leaf, worked out
    insert by insert: the smallest trees in which a page before the last one
    holds a single key. */
module SmallTrees {
  import opened Keys
  import opened Sorting
  import opened XNode
  import opened BTree
  import opened LeafChain
  import opened Store
  import opened Runs

  // ---------- pages whose values are all zero ----------

  function Zeros(n: nat): seq<Value> {
    seq(n, i => 0)
  }

  function PageOf(keys: seq<Key>, incar: nat, next: Leaf?): Page {
    Page(keys, Zeros(|keys|), incar, next)
  }

  function Empties(n: nat): seq<Key> {
    seq(n, i => INVALID)
  }

  function NewTip(n: nat, leaf: Leaf): Tip {
    Tip(leaf, PageOf(Empties(n), 0, null))
  }

  /** keys, then empty slots up to n. */
  function Padded(n: nat, keys: seq<Key>): seq<Key>
    requires |keys| <= n
  {
    keys + Empties(n - |keys|)
  }

  lemma FirstFree(n: nat, keys: seq<Key>)
    requires |keys| <= n && INVALID !in keys
    ensures First(Padded(n, keys), INVALID) == |keys|
  {
    var padded := Padded(n, keys);
    assert forall j :: 0 <= j < |keys| ==> padded[j] == keys[j] && keys[j] in keys;
    assert |keys| < n ==> padded[|keys|] == INVALID;
  }

  lemma PutNext(n: nat, keys: seq<Key>, incar: nat, next: Leaf?, k: Key)
    requires |keys| < n && INVALID !in keys
    ensures Put(PageOf(Padded(n, keys), incar, next), k, 0) == PageOf(Padded(n, keys + [k]), incar, next)
  {
    FirstFree(n, keys);
    assert Padded(n, keys)[|keys| := k] == Padded(n, keys + [k]);
    assert Zeros(n)[|keys| := 0] == Zeros(n);
  }

  // ---------- the four splits ----------

  lemma SortedTwo(x: Key, y: Key)
    requires x <= y
    ensures Sort([x, y]) == [x, y]
  {
    assert [x, y][1..] == [y] && [y][1..] == [] && Sort([y]) == [y];
  }

  lemma SortedThree(x: Key, y: Key, z: Key)
    requires x <= y && x <= z
    ensures Sort([x, y, z]) == if y <= z then [x, y, z] else [x, z, y]
  {
    assert [x, y, z][1..] == [y, z] && [y, z][1..] == [z] && [z][1..] == [] && Sort([z]) == [z];
    assert InsertSorted(y, []) == [y];
    assert Sort([y, z]) == if y <= z then [y, z] else [z, y];
    assert Sort([x, y, z]) == InsertSorted(x, Sort([y, z]));
  }

  lemma MedianIs(keys: seq<Key>, m: nat)
    requires m < |keys| && Sort(keys)[|keys| / 2] == keys[m] && forall i :: 0 <= i < m ==> keys[i] != keys[m]
    ensures MedianSlot(keys) == m
  {}

  /** Slot i stays where it is. */
  predicate Stays(keys: seq<Key>, pivot: Key, i: nat)
    requires i < |keys|
  {
    keys[i] == INVALID || keys[i] <= pivot
  }

  lemma {:induction false} MoveNone(p: Page, c: Page, pivot: Key, i: nat)
    requires |p.keys| == |p.vals| && |c.keys| == |c.vals| && i <= |p.keys|
    requires forall j :: i <= j < |p.keys| ==> Stays(p.keys, pivot, j)
    ensures MoveAbove(p, c, pivot, i) == (p, c)
    decreases |p.keys| - i
  {
    if i < |p.keys| {
      assert Stays(p.keys, pivot, i);
      MoveNone(p, c, pivot, i + 1);
    }
  }

  lemma {:induction false} MoveOne(p: Page, c: Page, pivot: Key, i: nat, m: nat)
    requires |p.keys| == |p.vals| && |c.keys| == |c.vals| && i <= m < |p.keys| && !Stays(p.keys, pivot, m)
    requires forall j :: i <= j < |p.keys| && j != m ==> Stays(p.keys, pivot, j)
    ensures MoveAbove(p, c, pivot, i) == (Clear(p, m), Put(c, p.keys[m], p.vals[m]))
    decreases |p.keys| - i
  {
    if i < m {
      assert Stays(p.keys, pivot, i);
      MoveOne(p, c, pivot, i + 1, m);
    } else {
      assert forall j :: m < j < |p.keys| ==> Stays(p.keys, pivot, j) && Clear(p, m).keys[j] == p.keys[j];
      MoveNone(Clear(p, m), Put(c, p.keys[m], p.vals[m]), pivot, m + 1);
    }
  }

  lemma PivotGone(keys: seq<Key>, incar: nat, next: Leaf?, m: nat)
    requires m < |keys| && MedianSlot(keys) == m
    ensures PivotMoved(PageOf(keys, incar, next), PageOf(Empties(|keys|), 0, null))
         == (PageOf(keys[m := INVALID], (incar + 1) % INCAR_LIMIT, next), PageOf(Padded(|keys|, [keys[m]]), 0, null))
  {
    assert Empties(|keys|) == Padded(|keys|, []);
    PutNext(|keys|, [], 0, null, keys[m]);
    assert [] + [keys[m]] == [keys[m]];
    assert PageOf(keys, incar, next).vals[m] == 0;
  }

  lemma HalvesTwo(x: Key, y: Key, incar: nat, next: Leaf?)
    requires x < y < INVALID
    ensures MedianSlot([x, y]) == 1
    ensures Halves(PageOf([x, y], incar, next), PageOf(Empties(2), 0, null))
         == (PageOf(Padded(2, [x]), (incar + 1) % INCAR_LIMIT, next), PageOf(Padded(2, [y]), 0, null))
  {
    SortedTwo(x, y);
    MedianIs([x, y], 1);
    PivotGone([x, y], incar, next, 1);
    assert [x, y][1 := INVALID] == Padded(2, [x]);
    MoveNone(PageOf(Padded(2, [x]), (incar + 1) % INCAR_LIMIT, next), PageOf(Padded(2, [y]), 0, null), y, 0);
  }

  /** Keys x < y < z, in either order of the last two. */
  lemma HalvesThree(x: Key, y: Key, z: Key, turned: bool, incar: nat, next: Leaf?)
    requires x < y < z < INVALID
    ensures MedianSlot(Three(x, y, z, turned)) == if turned then 2 else 1
    ensures Halves(PageOf(Three(x, y, z, turned), incar, next), PageOf(Empties(3), 0, null))
         == (PageOf(Padded(3, [x]), (incar + 1) % INCAR_LIMIT, next), PageOf(Padded(3, [y, z]), 0, null))
  {
    var keys := Three(x, y, z, turned);
    var m := if turned then 2 else 1;
    SortedThree(x, keys[1], keys[2]);
    MedianIs(keys, m);
    PivotGone(keys, incar, next, m);
    MoveOne(PageOf(keys[m := INVALID], (incar + 1) % INCAR_LIMIT, next), PageOf(Padded(3, [y]), 0, null), y, 0, 3 - m);
    PutNext(3, [y], 0, null, z);
    assert keys[m := INVALID][3 - m := INVALID] == Padded(3, [x]) && [y] + [z] == [y, z];
  }

  function Three(x: Key, y: Key, z: Key, turned: bool): seq<Key> {
    if turned then [x, z, y] else [x, y, z]
  }

  // ---------- what an insert makes of a leaf ----------

  function Ins(n: nat, k: Key, cand: Leaf): Op {
    Op(k, 0, NewTip(n, cand))
  }

  ghost predicate Becomes(n: nat, tip: Tip, op: Op, r: seq<Tip>) {
    && |tip.page.keys| == |tip.page.vals| > 0 && op.cand.page.Blank(n)
    && LeafStep(tip, op.k, op.v, op.cand) == r
  }

  function LeafOf(n: nat, leaf: Leaf, keys: seq<Key>, incar: nat, next: Leaf?): Tip
    requires |keys| <= n
  {
    Tip(leaf, PageOf(Padded(n, keys), incar, next))
  }

  lemma LeafPuts(n: nat, leaf: Leaf, keys: seq<Key>, incar: nat, next: Leaf?, k: Key, cand: Leaf)
    requires |keys| < n && INVALID !in keys
    ensures Becomes(n, LeafOf(n, leaf, keys, incar, next), Ins(n, k, cand), [LeafOf(n, leaf, keys + [k], incar, next)])
  {
    PutNext(n, keys, incar, next, k);
    assert Padded(n, keys)[|keys|] == INVALID;
  }

  lemma FullTwo(x: Key, y: Key)
    ensures Padded(2, [x, y]) == [x, y]
  {}

  /** Where the third key goes. */
  function LeftTwo(x: Key, y: Key, k: Key): seq<Key> {
    if k > y then [x] else [x, k]
  }

  function RightTwo(y: Key, k: Key): seq<Key> {
    if k > y then [y, k] else [y]
  }

  lemma SplitTwo(leaf: Leaf, x: Key, y: Key, incar: nat, next: Leaf?, k: Key, cand: Leaf)
    requires x < y < INVALID && k != y
    ensures Becomes(2, LeafOf(2, leaf, [x, y], incar, next), Ins(2, k, cand),
                    [LeafOf(2, leaf, LeftTwo(x, y, k), (incar + 1) % INCAR_LIMIT, cand),
                     LeafOf(2, cand, RightTwo(y, k), 0, next)])
  {
    FullTwo(x, y);
    HalvesTwo(x, y, incar, next);
    if k > y {
      PutNext(2, [y], 0, null, k);
      assert [y] + [k] == [y, k];
    } else {
      PutNext(2, [x], (incar + 1) % INCAR_LIMIT, next, k);
      assert [x] + [k] == [x, k];
    }
  }

  lemma SplitThree(leaf: Leaf, x: Key, y: Key, z: Key, turned: bool, incar: nat, next: Leaf?, k: Key, cand: Leaf)
    requires x < y < z < INVALID && k > y
    ensures Becomes(3, LeafOf(3, leaf, Three(x, y, z, turned), incar, next), Ins(3, k, cand),
                    [LeafOf(3, leaf, [x], (incar + 1) % INCAR_LIMIT, cand), LeafOf(3, cand, [y, z, k], 0, next)])
  {
    assert Padded(3, Three(x, y, z, turned)) == Three(x, y, z, turned);
    HalvesThree(x, y, z, turned, incar, next);
    PutNext(3, [y, z], 0, null, k);
    assert [y, z] + [k] == [y, z, k];
  }

  // ---------- what it makes of a small tree ----------

  function Lone(a: Tip): State {
    State(Some(Bottom(a)), 0)
  }

  function OnTwo(sep: Key, a: Tip, b: Tip): State {
    State(Some(Fork([sep], [Bottom(a), Bottom(b)])), 1)
  }

  function OnThree(s1: Key, s2: Key, a: Tip, b: Tip, c: Tip): State {
    State(Some(Fork([s1, s2], [Bottom(a), Bottom(b), Bottom(c)])), 1)
  }

  lemma LoneKeeps(n: nat, a: Tip, op: Op, b: Tip)
    requires WellFormed(Lone(a), n) && Becomes(n, a, op, [b])
    ensures After(n, Lone(a), op) == Lone(b)
  {}

  lemma LoneSplits(n: nat, a: Tip, op: Op, b: Tip, c: Tip)
    requires WellFormed(Lone(a), n) && Becomes(n, a, op, [b, c])
    requires |c.page.keys| > 0
    ensures After(n, Lone(a), op) == OnTwo(c.page.keys[0], b, c)
  {}

  lemma TwoSplits(n: nat, sep: Key, a: Tip, b: Tip, op: Op, c: Tip, d: Tip)
    requires WellFormed(OnTwo(sep, a, b), n) && op.k >= sep
    requires Becomes(n, b, op, [c, d]) && |d.page.keys| > 0
    ensures After(n, OnTwo(sep, a, b), op) == OnThree(sep, d.page.keys[0], a, c, d)
  {
    assert ChildIdx([sep], op.k) == 1;
    var kids := [Bottom(a), Bottom(b)];
    var up := d.page.keys[0];
    assert InsertT(n, 0, kids[1], op.k, op.v, op.cand) == Insertion(Bottom(c), Sib(up, Bottom(d)));
    assert InsertAt([sep], kids[1 := Bottom(c)], 1, up, Bottom(d)) ==
           Fork([sep, up], [Bottom(a), Bottom(c), Bottom(d)]);
  }

  lemma ThreeKeeps(n: nat, s1: Key, s2: Key, a: Tip, b: Tip, c: Tip, op: Op, d: Tip)
    requires WellFormed(OnThree(s1, s2, a, b, c), n) && s1 <= op.k < s2
    requires Becomes(n, b, op, [d])
    ensures After(n, OnThree(s1, s2, a, b, c), op) == OnThree(s1, s2, a, d, c)
  {
    var kids := [Bottom(a), Bottom(b), Bottom(c)];
    assert ChildIdx([s1, s2], op.k) == 1;
    assert InsertT(n, 0, kids[1], op.k, op.v, op.cand) == Insertion(Bottom(d), NoSib);
    assert kids[1 := Bottom(d)] == [Bottom(a), Bottom(d), Bottom(c)];
  }

  lemma TwoTips(sep: Key, a: Tip, b: Tip)
    ensures StoreTips(OnTwo(sep, a, b)) == [a, b]
  {
    var kids := [Bottom(a), Bottom(b)];
    assert TipsAll(kids) == Tips(kids[0]) + TipsAll(kids[1..]);
    assert TipsAll(kids[1..]) == Tips(kids[1]) + TipsAll(kids[2..]);
  }

  lemma ThreeTips(s1: Key, s2: Key, a: Tip, b: Tip, c: Tip)
    ensures StoreTips(OnThree(s1, s2, a, b, c)) == [a, b, c]
  {
    var kids := [Bottom(a), Bottom(b), Bottom(c)];
    assert TipsAll(kids) == Tips(kids[0]) + TipsAll(kids[1..]);
    assert TipsAll(kids[1..]) == Tips(kids[1]) + TipsAll(kids[2..]);
    assert TipsAll(kids[2..]) == Tips(kids[2]) + TipsAll(kids[3..]);
  }

  // ---------- the runs ----------

  lemma {:induction false} UpdateKeys(ops: seq<Op>, m: nat)
    requires m <= |ops|
    ensures Updates(ops, m).Keys == set i | 0 <= i < m :: ops[i].k
  {
    if m > 0 {
      UpdateKeys(ops, m - 1);
    }
  }

  /** A run from the empty tree that inserts keys and ends in s. */
  ghost predicate Builds(n: nat, ss: seq<State>, ops: seq<Op>, keys: seq<Key>, s: State) {
    && Run(n, ss, ops) && ss[0] == EMPTY && ss[|ops|] == s && WellFormed(s, n)
    && |keys| == |ops| && forall i :: 0 <= i < |ops| ==> ops[i].k == keys[i]
  }

  /** One more key. */
  lemma BuildsMore(n: nat, ss: seq<State>, ops: seq<Op>, keys: seq<Key>, s: State, k: Key, cand: Leaf, t: State)
    returns (ss': seq<State>, ops': seq<Op>)
    requires Builds(n, ss, ops, keys, s) && k != INVALID && k !in keys && cand !in Leaves(StoreTips(s))
    requires After(n, s, Ins(n, k, cand)) == t
    ensures Builds(n, ss', ops', keys + [k], t)
  {
    var op := Ins(n, k, cand);
    RunPairs(n, ss, ops, |ops|);
    UpdateKeys(ops, |ops|);
    assert Pairs(ss[0], n) == map[];
    StepPairs(n, s, op);
    RunMore(n, ss, ops, op, t);
    ss', ops' := ss + [t], ops + [op];
  }

  lemma BuildsFirst(n: nat, k: Key, a: Leaf) returns (ss: seq<State>, ops: seq<Op>)
    requires n >= 2 && k != INVALID
    ensures Builds(n, ss, ops, [k], Lone(LeafOf(n, a, [k], 0, null)))
  {
    PutNext(n, [], 0, null, k);
    assert Empties(n) == Padded(n, []) && [] + [k] == [k];
    ss, ops := BuildsMore(n, [EMPTY], [], [], EMPTY, k, a, Lone(LeafOf(n, a, [k], 0, null)));
  }

  /** A leaf alone takes a key. */
  lemma BuildsLone(n: nat, ss: seq<State>, ops: seq<Op>, a: Leaf, keys: seq<Key>, k: Key, cand: Leaf)
    returns (ss': seq<State>, ops': seq<Op>)
    requires |keys| < n && Builds(n, ss, ops, keys, Lone(LeafOf(n, a, keys, 0, null)))
    requires k != INVALID && k !in keys && a != cand && INVALID !in keys
    ensures Builds(n, ss', ops', keys + [k], Lone(LeafOf(n, a, keys + [k], 0, null)))
  {
    var s, t := LeafOf(n, a, keys, 0, null), LeafOf(n, a, keys + [k], 0, null);
    LeafPuts(n, a, keys, 0, null, k, cand);
    LoneKeeps(n, s, Ins(n, k, cand), t);
    ss', ops' := BuildsMore(n, ss, ops, keys, Lone(s), k, cand, Lone(t));
  }

  /** A leaf alone splits. */
  lemma BuildsTwo(n: nat, ss: seq<State>, ops: seq<Op>, keys: seq<Key>, a: Tip, k: Key, cand: Leaf, l: Tip, r: Tip)
    returns (ss': seq<State>, ops': seq<Op>)
    requires Builds(n, ss, ops, keys, Lone(a)) && k != INVALID && k !in keys && a.leaf != cand
    requires Becomes(n, a, Ins(n, k, cand), [l, r]) && |r.page.keys| > 0
    ensures Builds(n, ss', ops', keys + [k], OnTwo(r.page.keys[0], l, r))
  {
    LoneSplits(n, a, Ins(n, k, cand), l, r);
    ss', ops' := BuildsMore(n, ss, ops, keys, Lone(a), k, cand, OnTwo(r.page.keys[0], l, r));
  }

  /** The second of two leaves splits. */
  lemma BuildsThree(n: nat, ss: seq<State>, ops: seq<Op>, keys: seq<Key>, sep: Key, a: Tip, b: Tip, k: Key, cand: Leaf,
                    l: Tip, r: Tip)
    returns (ss': seq<State>, ops': seq<Op>)
    requires Builds(n, ss, ops, keys, OnTwo(sep, a, b)) && k !in keys && a.leaf != cand && b.leaf != cand
    requires sep <= k < INVALID && Becomes(n, b, Ins(n, k, cand), [l, r]) && |r.page.keys| > 0
    ensures Builds(n, ss', ops', keys + [k], OnThree(sep, r.page.keys[0], a, l, r))
  {
    TwoTips(sep, a, b);
    TwoSplits(n, sep, a, b, Ins(n, k, cand), l, r);
    ss', ops' := BuildsMore(n, ss, ops, keys, OnTwo(sep, a, b), k, cand, OnThree(sep, r.page.keys[0], a, l, r));
  }

  function SmallTree(n: nat, a: Leaf, b: Leaf, c: Leaf): State {
    if n == 2 then
      OnThree(30, 40, LeafOf(2, a, [20], 1, b), LeafOf(2, b, [30, 35], 1, c), LeafOf(2, c, [40], 0, null))
    else
      OnThree(30, 35, LeafOf(3, a, [20], 1, b), LeafOf(3, b, [30, 32], 1, c), LeafOf(3, c, [35, 40, 50], 0, null))
  }

  function SmallKeys(n: nat): seq<Key> {
    if n == 2 then [20, 30, 40, 35] else [20, 30, 40, 35, 50, 32]
  }

  /** Two slots: the first leaf splits for 40, the second for 35. */
  lemma BuildsOfTwo(a: Leaf, b: Leaf, c: Leaf) returns (ss: seq<State>, ops: seq<Op>)
    requires a != b && b != c && a != c
    ensures Builds(2, ss, ops, SmallKeys(2), SmallTree(2, a, b, c))
  {
    ss, ops := BuildsTwoLeaves(a, b);
    assert [20, 30, 40] + [35] == SmallKeys(2);
    SplitTwo(b, 30, 40, 0, null, 35, c);
    ss, ops := BuildsThree(2, ss, ops, [20, 30, 40], 30, LeafOf(2, a, [20], 1, b), LeafOf(2, b, [30, 40], 0, null),
                           35, c, LeafOf(2, b, [30, 35], 1, c), LeafOf(2, c, [40], 0, null));
  }

  lemma BuildsTwoLeaves(a: Leaf, b: Leaf) returns (ss: seq<State>, ops: seq<Op>)
    requires a != b
    ensures Builds(2, ss, ops, [20, 30, 40], OnTwo(30, LeafOf(2, a, [20], 1, b), LeafOf(2, b, [30, 40], 0, null)))
  {
    ss, ops := BuildsFirst(2, 20, a);
    ss, ops := BuildsLone(2, ss, ops, a, [20], 30, b);
    assert [20] + [30] == [20, 30] && [20, 30] + [40] == [20, 30, 40];
    SplitTwo(a, 20, 30, 0, null, 40, b);
    ss, ops := BuildsTwo(2, ss, ops, [20, 30], LeafOf(2, a, [20, 30], 0, null), 40, b,
                         LeafOf(2, a, [20], 1, b), LeafOf(2, b, [30, 40], 0, null));
  }

  /** Three slots: the first leaf splits for 35, the second for 50; then it takes
      32. */
  lemma BuildsOfThree(a: Leaf, b: Leaf, c: Leaf, d: Leaf) returns (ss: seq<State>, ops: seq<Op>)
    requires a != b && b != c && a != c && d != a && d != b && d != c
    ensures Builds(3, ss, ops, SmallKeys(3), SmallTree(3, a, b, c))
  {
    ss, ops := BuildsFiveKeys(a, b, c);
    var l, m, e := LeafOf(3, a, [20], 1, b), LeafOf(3, b, [30], 1, c), LeafOf(3, c, [35, 40, 50], 0, null);
    LeafPuts(3, b, [30], 1, c, 32, d);
    assert [30] + [32] == [30, 32] && [20, 30, 40, 35, 50] + [32] == SmallKeys(3);
    ThreeKeeps(3, 30, 35, l, m, e, Ins(3, 32, d), LeafOf(3, b, [30, 32], 1, c));
    ThreeTips(30, 35, l, m, e);
    ss, ops := BuildsMore(3, ss, ops, [20, 30, 40, 35, 50], OnThree(30, 35, l, m, e), 32, d, SmallTree(3, a, b, c));
  }

  lemma BuildsFiveKeys(a: Leaf, b: Leaf, c: Leaf) returns (ss: seq<State>, ops: seq<Op>)
    requires a != b && b != c && a != c
    ensures Builds(3, ss, ops, [20, 30, 40, 35, 50],
                   OnThree(30, 35, LeafOf(3, a, [20], 1, b), LeafOf(3, b, [30], 1, c),
                           LeafOf(3, c, [35, 40, 50], 0, null)))
  {
    ss, ops := BuildsFourKeys(a, b);
    assert [20, 30, 40, 35] + [50] == [20, 30, 40, 35, 50];
    SplitThree(b, 30, 35, 40, true, 0, null, 50, c);
    ss, ops := BuildsThree(3, ss, ops, [20, 30, 40, 35], 30, LeafOf(3, a, [20], 1, b),
                           LeafOf(3, b, [30, 40, 35], 0, null), 50, c, LeafOf(3, b, [30], 1, c),
                           LeafOf(3, c, [35, 40, 50], 0, null));
  }

  lemma BuildsFourKeys(a: Leaf, b: Leaf) returns (ss: seq<State>, ops: seq<Op>)
    requires a != b
    ensures Builds(3, ss, ops, [20, 30, 40, 35],
                   OnTwo(30, LeafOf(3, a, [20], 1, b), LeafOf(3, b, [30, 40, 35], 0, null)))
  {
    ss, ops := BuildsThreeKeys(a, b);
    assert [20, 30, 40] + [35] == [20, 30, 40, 35];
    SplitThree(a, 20, 30, 40, false, 0, null, 35, b);
    ss, ops := BuildsTwo(3, ss, ops, [20, 30, 40], LeafOf(3, a, [20, 30, 40], 0, null), 35, b,
                         LeafOf(3, a, [20], 1, b), LeafOf(3, b, [30, 40, 35], 0, null));
  }

  lemma BuildsThreeKeys(a: Leaf, b: Leaf) returns (ss: seq<State>, ops: seq<Op>)
    requires a != b
    ensures Builds(3, ss, ops, [20, 30, 40], Lone(LeafOf(3, a, [20, 30, 40], 0, null)))
  {
    ss, ops := BuildsFirst(3, 20, a);
    ss, ops := BuildsLone(3, ss, ops, a, [20], 30, b);
    assert [20] + [30] == [20, 30] && [20, 30] + [40] == [20, 30, 40];
    ss, ops := BuildsLone(3, ss, ops, a, [20, 30], 40, b);
  }

  /** The tree that inserting the keys in this order builds. */
  lemma SmallBuilt(n: nat, a: Leaf, b: Leaf, c: Leaf, d: Leaf) returns (ss: seq<State>, ops: seq<Op>)
    requires 2 <= n <= 3 && a != b && b != c && a != c && d != a && d != b && d != c
    ensures Builds(n, ss, ops, SmallKeys(n), SmallTree(n, a, b, c))
    ensures Pairs(SmallTree(n, a, b, c), n).Keys == set k | k in SmallKeys(n)
  {
    if n == 2 {
      ss, ops := BuildsOfTwo(a, b, c);
    } else {
      ss, ops := BuildsOfThree(a, b, c, d);
    }
    RunPairs(n, ss, ops, |ops|);
    UpdateKeys(ops, |ops|);
    assert Pairs(ss[0], n) == map[];
    forall k | k in SmallKeys(n) ensures k in Updates(ops, |ops|) {
      var i :| 0 <= i < |ops| && SmallKeys(n)[i] == k;
      assert ops[i].k == k;
    }
  }
}
