/** Separators bound their subtrees, and every insert keeps it so. */
module TreeOrder {
  import opened Keys
  import opened XNode
  import opened BTree

  /** Fence i of a node: child i holds the keys from fence i to fence i + 1. */
  function Fence(lo: Key, seps: seq<Key>, hi: Key, i: nat): Key
    requires i <= |seps| + 1
  {
    if i == 0 then lo else if i <= |seps| then seps[i - 1] else hi
  }

  /** The fences rise strictly. */
  ghost predicate Rising(lo: Key, seps: seq<Key>, hi: Key)
    decreases |seps|
  {
    if |seps| == 0 then lo < hi else lo < seps[0] && Rising(seps[0], seps[1..], hi)
  }

  ghost predicate Rises(lo: Key, seps: seq<Key>, hi: Key) {
    forall i, j :: 0 <= i < j <= |seps| + 1 ==> Fence(lo, seps, hi, i) < Fence(lo, seps, hi, j)
  }

  lemma {:induction false} RisingRises(lo: Key, seps: seq<Key>, hi: Key)
    ensures Rising(lo, seps, hi) <==> Rises(lo, seps, hi)
    decreases |seps|
  {
    if |seps| == 0 {
      assert Rises(lo, seps, hi) ==> Fence(lo, seps, hi, 0) < Fence(lo, seps, hi, 1);
    } else {
      var r := seps[1..];
      RisingRises(seps[0], r, hi);
      assert forall i: nat :: i <= |r| + 1 ==> Fence(seps[0], r, hi, i) == Fence(lo, seps, hi, i + 1);
      if Rises(lo, seps, hi) {
        assert Fence(lo, seps, hi, 0) < Fence(lo, seps, hi, 1);
      }
      if Rising(lo, seps, hi) {
        forall i, j | 0 <= i < j <= |seps| + 1 ensures Fence(lo, seps, hi, i) < Fence(lo, seps, hi, j) {
          assert Fence(lo, seps, hi, j) == Fence(seps[0], r, hi, j - 1);
          if i > 0 {
            assert Fence(lo, seps, hi, i) == Fence(seps[0], r, hi, i - 1);
          } else if j > 1 {
            assert Fence(seps[0], r, hi, 0) < Fence(seps[0], r, hi, j - 1);
          }
        }
      }
    }
  }

  lemma RisingAt(lo: Key, seps: seq<Key>, hi: Key, i: nat, j: nat)
    requires Rising(lo, seps, hi) && i <= j <= |seps| + 1
    ensures Fence(lo, seps, hi, i) <= Fence(lo, seps, hi, j)
    ensures i < j ==> Fence(lo, seps, hi, i) < Fence(lo, seps, hi, j)
  {
    RisingRises(lo, seps, hi);
  }

  lemma InsertedFence(lo: Key, seps: seq<Key>, hi: Key, i: nat, up: Key, j: nat)
    requires i <= |seps| && j <= |seps| + 2
    ensures Fence(lo, Inserted(seps, i, up), hi, j)
         == if j <= i then Fence(lo, seps, hi, j) else if j == i + 1 then up else Fence(lo, seps, hi, j - 1)
  {}

  lemma RisingInsert(lo: Key, seps: seq<Key>, hi: Key, i: nat, up: Key)
    requires Rising(lo, seps, hi) && i <= |seps|
    requires Fence(lo, seps, hi, i) < up < Fence(lo, seps, hi, i + 1)
    ensures Rising(lo, Inserted(seps, i, up), hi)
  {
    RisingRises(lo, seps, hi);
    var s := Inserted(seps, i, up);
    forall a, b | 0 <= a < b <= |s| + 1 ensures Fence(lo, s, hi, a) < Fence(lo, s, hi, b) {
      InsertedFence(lo, seps, hi, i, up, a);
      InsertedFence(lo, seps, hi, i, up, b);
      RisingAt(lo, seps, hi, if a <= i then a else i + 1, if a <= i then i else Max(a - 1, i + 1));
      RisingAt(lo, seps, hi, if b <= i + 1 then 0 else i + 1, if b <= i + 1 then 0 else b - 1);
    }
    RisingRises(lo, s, hi);
  }

  lemma RisingCut(lo: Key, seps: seq<Key>, hi: Key, s: nat)
    requires Rising(lo, seps, hi) && s < |seps|
    ensures Rising(lo, seps[..s], seps[s]) && Rising(seps[s], seps[s + 1..], hi)
    ensures lo < seps[s] < hi
    ensures forall j :: 0 <= j <= s + 1 ==> Fence(lo, seps[..s], seps[s], j) == Fence(lo, seps, hi, j)
    ensures forall j {:trigger Fence(seps[s], seps[s + 1..], hi, j)} :: 0 <= j <= |seps| - s ==>
      Fence(seps[s], seps[s + 1..], hi, j) == Fence(lo, seps, hi, j + s + 1)
  {
    RisingRises(lo, seps, hi);
    RisingAt(lo, seps, hi, 0, s + 1);
    RisingAt(lo, seps, hi, s + 1, |seps| + 1);
    var a, b := seps[..s], seps[s + 1..];
    forall i, j | 0 <= i < j <= |a| + 1 ensures Fence(lo, a, seps[s], i) < Fence(lo, a, seps[s], j) {
      assert Fence(lo, seps, hi, i) < Fence(lo, seps, hi, j);
    }
    RisingRises(lo, a, seps[s]);
    forall i, j | 0 <= i < j <= |b| + 1 ensures Fence(seps[s], b, hi, i) < Fence(seps[s], b, hi, j) {
      assert Fence(lo, seps, hi, i + s + 1) < Fence(lo, seps, hi, j + s + 1);
    }
    RisingRises(seps[s], b, hi);
  }

  ghost predicate InRange(page: Page, lo: Key, hi: Key) {
    forall k :: k in KeySet(page.keys) ==> lo <= k < hi
  }

  /** Keys of t lie in [lo, hi), and those of child i between its fences. */
  ghost predicate Ordered(t: Tree, lo: Key, hi: Key)
    decreases t
  {
    match t
    case Bottom(tip) => InRange(tip.page, lo, hi)
    case Fork(seps, kids) =>
      && |kids| == |seps| + 1
      && Rising(lo, seps, hi)
      && forall i :: 0 <= i < |kids| ==> Ordered(kids[i], Fence(lo, seps, hi, i), Fence(lo, seps, hi, i + 1))
  }

  /** The fences around the child that k descends to enclose k. */
  lemma ChildEncloses(seps: seq<Key>, lo: Key, hi: Key, k: Key)
    requires lo <= k < hi
    ensures var i := ChildIdx(seps, k);
      Fence(lo, seps, hi, i) <= k < Fence(lo, seps, hi, i + 1)
  {}

  /** What an insert into a subtree with bounds [lo, hi) must return. */
  ghost predicate Good(r: Insertion, n: nat, d: nat, lo: Key, hi: Key) {
    match r.sib
    case NoSib => Shaped(r.tree, n, d) && Ordered(r.tree, lo, hi)
    case Sib(up, s) =>
      && lo < up < hi
      && Shaped(r.tree, n, d) && Ordered(r.tree, lo, up)
      && Shaped(s, n, d) && Ordered(s, up, hi)
  }

  lemma EntriesInRange(p: Page, n: nat, e: map<Key, Value>, lo: Key, hi: Key)
    requires p.Valid(n) && p.Entries().Keys <= e.Keys
    requires forall x :: x in e.Keys && x in p.Entries() ==> lo <= x < hi
    ensures InRange(p, lo, hi)
  {
    FullSize(p, n);
  }

  lemma PartitionInRange(e: map<Key, Value>, l: Page, r: Page, n: nat, lo: Key, hi: Key)
    requires Partition(e, l, r, n) && |l.Entries()| > 0
    requires forall x :: x in e.Keys ==> lo <= x < hi
    ensures lo < r.keys[0] < hi
    ensures InRange(l, lo, r.keys[0]) && InRange(r, r.keys[0], hi)
  {
    EntriesInRange(l, n, e, lo, r.keys[0]);
    EntriesInRange(r, n, e, r.keys[0], hi);
    var x :| x in l.Entries();
    assert x in e.Keys && lo <= x < r.keys[0];
  }

  lemma LeafStepGood(tip: Tip, n: nat, lo: Key, hi: Key, k: Key, v: Value, cand: Tip)
    requires Insertable(n, 0, Bottom(tip), lo, hi, k) && cand.page.Blank(n)
    ensures Good(InsertT(n, 0, Bottom(tip), k, v, cand), n, 0, lo, hi)
  {
    if tip.page.Full() {
      SplitInRange(tip.page, n, lo, hi, k, v, cand);
    } else {
      PutInRange(tip.page, n, lo, hi, k, v);
    }
  }

  lemma SplitInRange(p: Page, n: nat, lo: Key, hi: Key, k: Key, v: Value, cand: Tip)
    requires p.Valid(n) && p.Full() && n >= 2 && cand.page.Blank(n)
    requires k !in p.keys && lo <= k < hi && InRange(p, lo, hi)
    ensures var r := LeafInsert(p, cand.leaf, cand.page, k, v);
      && r.left.Valid(n) && r.right.Valid(n) && lo < r.right.keys[0] < hi
      && InRange(r.left, lo, r.right.keys[0]) && InRange(r.right, r.right.keys[0], hi)
  {
    SplitPartition(p, n, cand.leaf, cand.page, k, v);
    FullSize(p, n);
    var r := LeafInsert(p, cand.leaf, cand.page, k, v);
    PartitionInRange(p.Entries()[k := v], r.left, r.right, n, lo, hi);
  }

  lemma PutInRange(p: Page, n: nat, lo: Key, hi: Key, k: Key, v: Value)
    requires p.Valid(n) && !p.Full() && k !in p.keys && lo <= k < hi && InRange(p, lo, hi)
    ensures Put(p, k, v).Valid(n) && InRange(Put(p, k, v), lo, hi)
  {
    PutValid(p, n, k, v);
  }

  /** A child's bounds on either side of its new right sibling. */
  ghost predicate Around(a: Key, b: Key, left: Tree, up: Key, right: Tree) {
    a < up < b && Ordered(left, a, up) && Ordered(right, up, b)
  }

  /** One child of a node is replaced by a tree and its new right sibling. */
  lemma InsertAtOrdered(seps: seq<Key>, kids: seq<Tree>, lo: Key, hi: Key,
                        i: nat, left: Tree, up: Key, right: Tree)
    requires Ordered(Fork(seps, kids), lo, hi) && i <= |seps|
    requires Around(Fence(lo, seps, hi, i), Fence(lo, seps, hi, i + 1), left, up, right)
    ensures Ordered(InsertAt(seps, kids[i := left], i, up, right), lo, hi)
  {
    var o := InsertAt(seps, kids[i := left], i, up, right);
    RisingInsert(lo, seps, hi, i, up);
    forall j | 0 <= j < |o.kids|
      ensures Ordered(o.kids[j], Fence(lo, o.seps, hi, j), Fence(lo, o.seps, hi, j + 1))
    {
      InsertedFence(lo, seps, hi, i, up, j);
      InsertedFence(lo, seps, hi, i, up, j + 1);
      if j < i {
        assert o.kids[j] == kids[j];
      } else if j > i + 1 {
        assert o.kids[j] == kids[j - 1];
      }
    }
  }

  lemma CutOrdered(t: Tree, s: nat, lo: Key, hi: Key)
    requires t.Fork? && Ordered(t, lo, hi) && s < |t.seps|
    ensures var r := CutAt(t, s);
      && lo < r.sib.up < hi
      && Ordered(r.tree, lo, r.sib.up) && Ordered(r.sib.tree, r.sib.up, hi)
  {
    var r := CutAt(t, s);
    RisingCut(lo, t.seps, hi, s);
    forall j | 0 <= j < |r.tree.kids|
      ensures Ordered(r.tree.kids[j], Fence(lo, t.seps[..s], t.seps[s], j), Fence(lo, t.seps[..s], t.seps[s], j + 1))
    {
      assert r.tree.kids[j] == t.kids[j];
    }
    forall j | 0 <= j < |r.sib.tree.kids|
      ensures Ordered(r.sib.tree.kids[j], Fence(t.seps[s], t.seps[s + 1..], hi, j),
          Fence(t.seps[s], t.seps[s + 1..], hi, j + 1))
    {
      assert r.sib.tree.kids[j] == t.kids[j + s + 1];
    }
  }

  /** A separator that comes up from child i falls on child i's side of the
      threshold. */
  lemma UpSide(n: nat, seps: seq<Key>, lo: Key, hi: Key, i: nat, up: Key)
    requires |seps| == n >= 1 && i <= n
    requires Rising(lo, seps, hi)
    requires Fence(lo, seps, hi, i) < up < Fence(lo, seps, hi, i + 1)
    ensures RightSide(n, seps, i, up)
  {
    var t := Threshold(n);
    assert Fence(lo, seps, hi, t) == seps[t - 1];
    if i >= t {
      RisingAt(lo, seps, hi, t, i);
    } else {
      RisingAt(lo, seps, hi, i + 1, t);
    }
  }

  lemma InsertAtShaped(n: nat, d: nat, seps: seq<Key>, kids: seq<Tree>, i: nat, left: Tree, up: Key, right: Tree)
    requires Shaped(Fork(seps, kids), n, d) && i <= |seps|
    requires Shaped(left, n, d - 1) && Shaped(right, n, d - 1)
    ensures var o := InsertAt(seps, kids[i := left], i, up, right);
      && |o.seps| == |seps| + 1 && |o.kids| == |o.seps| + 1
      && forall j :: 0 <= j < |o.kids| ==> Shaped(o.kids[j], n, d - 1)
  {
    var o := InsertAt(seps, kids[i := left], i, up, right);
    forall j | 0 <= j < |o.kids| ensures Shaped(o.kids[j], n, d - 1) {
      if j < i {
        assert o.kids[j] == kids[j];
      } else if j > i + 1 {
        assert o.kids[j] == kids[j - 1];
      }
    }
  }

  lemma CutShaped(n: nat, d: nat, o: Tree, s: nat)
    requires o.Fork? && d > 0 && s < |o.seps| == n + 1 && |o.kids| == |o.seps| + 1 && 0 <= s <= n
    requires forall j :: 0 <= j < |o.kids| ==> Shaped(o.kids[j], n, d - 1)
    ensures Shaped(CutAt(o, s).tree, n, d) && Shaped(CutAt(o, s).sib.tree, n, d)
  {
    var r := CutAt(o, s);
    forall j | 0 <= j < |r.sib.tree.kids| ensures Shaped(r.sib.tree.kids[j], n, d - 1) {
      assert r.sib.tree.kids[j] == o.kids[j + s + 1];
    }
  }

  lemma FullNodeCut(n: nat, seps: seq<Key>, kids: seq<Tree>, lo: Key, hi: Key,
                    i: nat, left: Tree, up: Key, right: Tree)
    requires Rising(lo, seps, hi) && |kids| == n + 1 && |seps| == n >= 2 && i <= n
    requires Fence(lo, seps, hi, i) < up < Fence(lo, seps, hi, i + 1)
    ensures RightSide(n, seps, i, up)
    ensures AddChild(n, seps, kids[i := left], i, up, right)
         == CutAt(InsertAt(seps, kids[i := left], i, up, right), CutPoint(n, i))
  {
    UpSide(n, seps, lo, hi, i, up);
    AddChildCut(n, seps, kids[i := left], i, up, right);
  }

  lemma CutGood(n: nat, d: nat, o: Tree, s: nat, lo: Key, hi: Key)
    requires o.Fork? && d > 0 && s < |o.seps| == n + 1 && |o.kids| == |o.seps| + 1
    requires forall j :: 0 <= j < |o.kids| ==> Shaped(o.kids[j], n, d - 1)
    requires Ordered(o, lo, hi)
    ensures Good(CutAt(o, s), n, d, lo, hi)
  {
    CutOrdered(o, s, lo, hi);
    CutShaped(n, d, o, s);
  }

  lemma AddChildGood(n: nat, d: nat, seps: seq<Key>, kids: seq<Tree>, lo: Key, hi: Key,
                     i: nat, left: Tree, up: Key, right: Tree)
    requires Shaped(Fork(seps, kids), n, d) && Ordered(Fork(seps, kids), lo, hi) && i <= |seps| && n >= 2
    requires Shaped(left, n, d - 1) && Shaped(right, n, d - 1)
    requires Around(Fence(lo, seps, hi, i), Fence(lo, seps, hi, i + 1), left, up, right)
    ensures Good(AddChild(n, seps, kids[i := left], i, up, right), n, d, lo, hi)
  {
    InsertAtOrdered(seps, kids, lo, hi, i, left, up, right);
    InsertAtShaped(n, d, seps, kids, i, left, up, right);
    if |seps| == n {
      FullNodeCut(n, seps, kids, lo, hi, i, left, up, right);
      CutGood(n, d, InsertAt(seps, kids[i := left], i, up, right), CutPoint(n, i), lo, hi);
    }
  }

  lemma ReplaceChildGood(n: nat, d: nat, seps: seq<Key>, kids: seq<Tree>, lo: Key, hi: Key, i: nat, kid: Tree)
    requires Shaped(Fork(seps, kids), n, d) && Ordered(Fork(seps, kids), lo, hi) && i <= |seps|
    requires Shaped(kid, n, d - 1) && Ordered(kid, Fence(lo, seps, hi, i), Fence(lo, seps, hi, i + 1))
    ensures Shaped(Fork(seps, kids[i := kid]), n, d) && Ordered(Fork(seps, kids[i := kid]), lo, hi)
  {}

  /** Key k can be inserted into t: it lies between t's bounds, and the leaf it
      leads to does not hold it. */
  ghost predicate Insertable(n: nat, d: nat, t: Tree, lo: Key, hi: Key, k: Key) {
    && n >= 2 && Shaped(t, n, d) && Ordered(t, lo, hi)
    && lo <= k < hi && k !in FindTip(t, n, d, k).page.keys
  }

  lemma InsertableChild(n: nat, d: nat, seps: seq<Key>, kids: seq<Tree>, lo: Key, hi: Key, k: Key)
    requires Insertable(n, d, Fork(seps, kids), lo, hi, k)
    ensures var i := ChildIdx(seps, k);
      Insertable(n, d - 1, kids[i], Fence(lo, seps, hi, i), Fence(lo, seps, hi, i + 1), k)
  {
    ChildEncloses(seps, lo, hi, k);
  }

  /** The step from a child's result to its node's. */
  lemma NodeGood(n: nat, d: nat, seps: seq<Key>, kids: seq<Tree>, lo: Key, hi: Key, i: nat, r: Insertion)
    requires n >= 2 && Shaped(Fork(seps, kids), n, d) && Ordered(Fork(seps, kids), lo, hi) && i <= |seps|
    requires Good(r, n, d - 1, Fence(lo, seps, hi, i), Fence(lo, seps, hi, i + 1))
    ensures Good(Grow(n, seps, kids, i, r), n, d, lo, hi)
  {
    match r.sib
    case NoSib => ReplaceChildGood(n, d, seps, kids, lo, hi, i, r.tree);
    case Sib(up, s) => AddChildGood(n, d, seps, kids, lo, hi, i, r.tree, up, s);
  }

  /** Inserting a key the tree does not hold keeps the shape and the order, and
      a split yields a separator between the two parts. */
  lemma {:induction false} InsertGood(n: nat, d: nat, t: Tree, lo: Key, hi: Key, k: Key, v: Value, cand: Tip)
    requires Insertable(n, d, t, lo, hi, k) && cand.page.Blank(n)
    ensures Good(InsertT(n, d, t, k, v, cand), n, d, lo, hi)
    decreases t
  {
    match t
    case Bottom(tip) => LeafStepGood(tip, n, lo, hi, k, v, cand);
    case Fork(seps, kids) =>
      var i := ChildIdx(seps, k);
      InsertableChild(n, d, seps, kids, lo, hi, k);
      InsertGood(n, d - 1, kids[i], Fence(lo, seps, hi, i), Fence(lo, seps, hi, i + 1), k, v, cand);
      NodeGood(n, d, seps, kids, lo, hi, i, InsertT(n, d - 1, kids[i], k, v, cand));
  }

  /** At a full inner node that receives a separator, the branch the program
      takes agrees with the position it descended at, so its assertion
      k >= threshold never fails. */
  lemma SplitSideAgrees(n: nat, d: nat, seps: seq<Key>, kids: seq<Tree>, lo: Key, hi: Key, k: Key, v: Value, cand: Tip)
    requires Insertable(n, d, Fork(seps, kids), lo, hi, k) && cand.page.Blank(n)
    requires |seps| == n && InsertT(n, d - 1, kids[ChildIdx(seps, k)], k, v, cand).sib.Sib?
    ensures RightSide(n, seps, ChildIdx(seps, k), InsertT(n, d - 1, kids[ChildIdx(seps, k)], k, v, cand).sib.up)
  {
    var i := ChildIdx(seps, k);
    InsertableChild(n, d, seps, kids, lo, hi, k);
    InsertGood(n, d - 1, kids[i], Fence(lo, seps, hi, i), Fence(lo, seps, hi, i + 1), k, v, cand);
    UpSide(n, seps, lo, hi, i, InsertT(n, d - 1, kids[i], k, v, cand).sib.up);
  }

  // ---------- the flat effect ----------

  lemma LeafFlat(n: nat, tip: Tip, k: Key, v: Value, cand: Tip)
    requires n >= 2 && tip.page.Valid(n) && cand.page.Blank(n)
    ensures Flat(InsertT(n, 0, Bottom(tip), k, v, cand)) == LeafStep(tip, k, v, cand)
    ensures |LeafStep(tip, k, v, cand)| == 2 ==> |LeafStep(tip, k, v, cand)[1].page.keys| == n
  {}

  lemma NodeFlatStep(n: nat, d: nat, seps: seq<Key>, kids: seq<Tree>, lo: Key, hi: Key, k: Key, v: Value, cand: Tip)
    requires Insertable(n, d, Fork(seps, kids), lo, hi, k) && cand.page.Blank(n)
    ensures var i := ChildIdx(seps, k);
      Flat(InsertT(n, d, Fork(seps, kids), k, v, cand))
      == TipsAll(kids[..i]) + Flat(InsertT(n, d - 1, kids[i], k, v, cand)) + TipsAll(kids[i + 1..])
  {
    var i := ChildIdx(seps, k);
    if |seps| == n && InsertT(n, d - 1, kids[i], k, v, cand).sib.Sib? {
      SplitSideAgrees(n, d, seps, kids, lo, hi, k, v, cand);
    }
    NodeFlat(n, seps, kids, i, InsertT(n, d - 1, kids[i], k, v, cand));
  }

  /** The flat effect on a child, seen from the node. */
  lemma ChildFlat(n: nat, d: nat, seps: seq<Key>, kids: seq<Tree>, k: Key, v: Value, cand: Tip, flat: seq<Tip>)
    requires n >= 2 && Shaped(Fork(seps, kids), n, d) && cand.page.Blank(n)
    requires var i := ChildIdx(seps, k);
      var pos := LeafPos(kids[i], n, d - 1, k);
      && pos < |Tips(kids[i])| && Tips(kids[i])[pos].page.Valid(n)
      && flat == InsertTips(Tips(kids[i]), pos, k, v, cand)
    ensures var i, pos := ChildIdx(seps, k), LeafPos(Fork(seps, kids), n, d, k);
      && pos < |TipsAll(kids)| && TipsAll(kids)[pos].page.Valid(n)
      && TipsAll(kids[..i]) + flat + TipsAll(kids[i + 1..]) == InsertTips(TipsAll(kids), pos, k, v, cand)
  {
    var i := ChildIdx(seps, k);
    var a, b, c := TipsAll(kids[..i]), Tips(kids[i]), TipsAll(kids[i + 1..]);
    var pos := LeafPos(kids[i], n, d - 1, k);
    TipsAllAround(kids, i);
    assert TipsAll(kids) == a + b + c && LeafPos(Fork(seps, kids), n, d, k) == |a| + pos;
    InsertTipsInside(a, b, c, pos, k, v, cand);
  }

  /** An insert changes the sequence of leaves only at the leaf that find_leaf
      finds: that leaf's page, and possibly the candidate right behind it. */
  lemma {:induction false} InsertFlat(n: nat, d: nat, t: Tree, lo: Key, hi: Key, k: Key, v: Value, cand: Tip)
    requires Insertable(n, d, t, lo, hi, k) && cand.page.Blank(n)
    ensures LeafPos(t, n, d, k) < |Tips(t)| && Tips(t)[LeafPos(t, n, d, k)].page.Valid(n)
    ensures Flat(InsertT(n, d, t, k, v, cand)) == InsertTips(Tips(t), LeafPos(t, n, d, k), k, v, cand)
    decreases t
  {
    match t
    case Bottom(tip) => LeafFlat(n, tip, k, v, cand);
    case Fork(seps, kids) =>
      var i := ChildIdx(seps, k);
      InsertableChild(n, d, seps, kids, lo, hi, k);
      InsertFlat(n, d - 1, kids[i], Fence(lo, seps, hi, i), Fence(lo, seps, hi, i + 1), k, v, cand);
      NodeFlatStep(n, d, seps, kids, lo, hi, k, v, cand);
      ChildFlat(n, d, seps, kids, k, v, cand, Flat(InsertT(n, d - 1, kids[i], k, v, cand)));
  }

  lemma InsertTipsInside(a: seq<Tip>, b: seq<Tip>, c: seq<Tip>, pos: nat, k: Key, v: Value, cand: Tip)
    requires pos < |b| && |b[pos].page.keys| == |b[pos].page.vals| > 0 && |cand.page.keys| == |cand.page.vals|
    ensures (a + b + c)[|a| + pos] == b[pos]
    ensures InsertTips(a + b + c, |a| + pos, k, v, cand) == a + InsertTips(b, pos, k, v, cand) + c
  {
    assert (a + b + c)[..|a| + pos] == a + b[..pos];
    assert (a + b + c)[|a| + pos + 1..] == b[pos + 1..] + c;
  }

  lemma NodeFlat(n: nat, seps: seq<Key>, kids: seq<Tree>, i: nat, r: Insertion)
    requires n >= 2 && |kids| == |seps| + 1 && |seps| <= n && i <= |seps|
    requires r.sib.Sib? && |seps| == n ==> RightSide(n, seps, i, r.sib.up)
    ensures Flat(Grow(n, seps, kids, i, r)) == TipsAll(kids[..i]) + Flat(r) + TipsAll(kids[i + 1..])
  {
    var kids' := kids[i := r.tree];
    assert kids'[..i] == kids[..i] && kids'[i + 1..] == kids[i + 1..];
    match r.sib
    case NoSib => TipsAllAround(kids', i);
    case Sib(up, s) =>
      InsertAtTips(seps, kids', i, up, s);
      if |seps| == n {
        AddChildCut(n, seps, kids', i, up, s);
        CutTips(InsertAt(seps, kids', i, up, s), CutPoint(n, i));
      }
  }
}
