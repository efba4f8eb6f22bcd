/** The tree object (XTree) and the bump allocator (XAlloc) its leaves come
    from.  state is the value the object represents. */
module XTree {
  import opened Keys
  import opened XNode
  import opened BTree
  import opened LeafChain
  import opened Store
  import opened TreeInner
  import Runs

  /** Every leaf below p is live: its memory is the page the tree says. */
  ghost predicate Live(tips: seq<Tip>, n: nat, fp: set<object>)
    reads fp
  {
    forall i {:trigger LiveTip(tips[i], n, fp)} :: 0 <= i < |tips| ==> LiveTip(tips[i], n, fp)
  }

  ghost predicate LiveTip(tip: Tip, n: nat, fp: set<object>)
    reads fp
  {
    tip.leaf.Footprint() <= fp && tip.leaf.Shaped(n) && tip.leaf.View() == tip.page
  }

  lemma {:induction false} LiveAll(ps: seq<Ptr>, ts: seq<Tree>, n: nat, d: nat, fp: set<object>)
    requires |ps| == |ts|
    requires forall i :: 0 <= i < |ps| ==> Inner.Inside(ps[i], fp) && Inner.Represents(ps[i], ts[i], n, d)
    ensures Live(TipsAll(ts), n, fp)
    decreases ts, 0
  {
    if |ts| > 0 {
      LiveBelow(ps[0], ts[0], n, d);
      LiveAll(ps[1..], ts[1..], n, d, fp);
    }
  }

  lemma {:induction false} LiveBelow(p: Ptr, t: Tree, n: nat, d: nat)
    requires Inner.Represents(p, t, n, d)
    ensures Live(Tips(t), n, Footprint(p))
    decreases t, 1
  {
    if d > 0 {
      var c := p.inner;
      assert c.Valid(d) && t == c.tree;
      forall i | 0 <= i <= c.numKeys
        ensures Inner.Inside(c.Ptrs()[i], c.repr) && Inner.Represents(c.Ptrs()[i], t.kids[i], n, d - 1)
      {
        c.ChildOk(d, i);
      }
      LiveAll(c.Ptrs(), t.kids, n, d - 1, c.repr);
    }
  }

  /** The size of count blocks. */
  function Span(unit: nat, count: nat): nat {
    if count == 0 then 0 else unit + Span(unit, count - 1)
  }

  lemma {:induction false} SpanMonotone(unit: nat, a: nat, b: nat)
    requires a <= b
    ensures Span(unit, a) <= Span(unit, b)
  {
    if a < b {
      SpanMonotone(unit, a, b - 1);
    }
  }

  lemma {:induction false} SpanIs(unit: nat, count: nat)
    ensures Span(unit, count) == unit * count
  {
    if count > 0 {
      SpanIs(unit, count - 1);
      assert unit * count == unit + unit * (count - 1);
    }
  }

  class XAlloc {
    const pool: nat
    const unit: nat
    const total: nat
    var curSz: nat
    var curNum: nat

    constructor (pool: nat, unit: nat, total: nat)
      requires unit > 0
      ensures Valid() && this.pool == pool && this.unit == unit && this.total == total && curNum == 0
    {
      this.pool, this.unit, this.total := pool, unit, total;
      curSz, curNum := 0, 0;
    }

    ghost predicate Valid()
      reads this
    {
      unit > 0 && curSz == Span(unit, curNum) && curSz <= total
    }

    /** The next block of the pool, if one is left. */
    method Alloc() returns (res: Option<nat>)
      requires Valid()
      modifies this
      ensures Valid()
      ensures res.Some? <==> Span(unit, old(curNum) + 1) <= total
      ensures res.Some? ==> res.value == pool + old(curSz) && curNum == old(curNum) + 1 && curSz == old(curSz) + unit
      ensures res.None? ==> curNum == old(curNum) && curSz == old(curSz)
    {
      if curSz + unit <= total {
        res := Some(pool + curSz);
        curSz := curSz + unit;
        curNum := curNum + 1;
      } else {
        res := None;
      }
    }
  }

  class XTree {
    const n: nat
    var depth: nat
    var root: Ptr
    // thread-local in the program: the blank leaf the next split will use
    var preAlloc: Leaf?
    ghost var state: State
    ghost var repr: set<object>

    constructor (n: nat)
      requires n >= 2
      ensures Valid() && this.n == n && Pairs(state, n) == map[] && root == Null && preAlloc == null
      ensures fresh(repr)
    {
      this.n := n;
      depth := 0;
      root := Null;
      preAlloc := null;
      state := EMPTY;
      repr := {};
    }

    /** The tree is a well-formed one and state is its value. */
    ghost predicate Rooted()
      reads this, repr
    {
      && this !in repr
      && WellFormed(state, n) && state.depth == depth
      && (root == Null <==> state.root.None?)
      && (root != Null ==> Inner.Inside(root, repr) && Inner.Represents(root, state.root.value, n, depth))
    }

    ghost predicate Valid()
      reads this, repr
    {
      && Rooted()
      && (preAlloc != null ==>
          preAlloc.Footprint() <= repr && Spare(preAlloc, n) && Footprint(root) !! preAlloc.Footprint())
    }

    static ghost predicate Spare(leaf: Leaf, n: nat)
      reads leaf.Footprint()
    {
      leaf.Shaped(n) && leaf.View().Blank(n) && leaf.incar == 0 && leaf.next == null
    }

    lemma LiveTips()
      requires Valid()
      ensures Live(StoreTips(state), n, repr)
      ensures forall i :: 0 <= i < |StoreTips(state)| ==> StoreTips(state)[i].leaf.Footprint() <= Footprint(root)
    {
      if root != Null {
        LiveBelow(root, state.root.value, n, depth);
        var tips := StoreTips(state);
        forall i | 0 <= i < |tips| ensures LiveTip(tips[i], n, repr) {
          assert LiveTip(tips[i], n, Footprint(root));
        }
        forall i | 0 <= i < |tips| ensures tips[i].leaf.Footprint() <= Footprint(root) {
          assert LiveTip(tips[i], n, Footprint(root));
        }
      }
    }

    method FindLeaf(k: Key) returns (leaf: Leaf)
      requires Valid() && root != Null
      ensures leaf == FindTip(state.root.value, n, depth, k).leaf
      ensures leaf.View() == FindTip(state.root.value, n, depth, k).page
      ensures leaf.Shaped(n) && leaf.Footprint() <= repr
    {
      leaf := Descend(n, root, state.root.value, depth, k, repr);
    }

    /** Follow the separators from cur down to a leaf. */
    static method Descend(n: nat, start: Ptr, ghost tree: Tree, depth: nat, k: Key, ghost fp: set<object>)
      returns (leaf: Leaf)
      requires Inner.Inside(start, fp) && Inner.Represents(start, tree, n, depth) && Shaped(tree, n, depth)
      ensures leaf == FindTip(tree, n, depth, k).leaf && leaf.View() == FindTip(tree, n, depth, k).page
      ensures leaf.Shaped(n) && leaf.Footprint() <= fp
    {
      var curNode, curDepth := start, depth;
      ghost var t := tree;
      while curDepth != 0
        invariant Inner.Inside(curNode, fp) && Inner.Represents(curNode, t, n, curDepth) && Shaped(t, n, curDepth)
        invariant FindTip(t, n, curDepth, k) == FindTip(tree, n, depth, k)
        decreases curDepth
      {
        curNode, t := curNode.inner.FindChild(k, curDepth);
        curDepth := curDepth - 1;
      }
      leaf := curNode.leaf;
    }

    /** get: exactly the stored pairs. */
    method Get(k: Key) returns (v: Option<Value>)
      requires Valid() && root != Null && k != INVALID
      ensures v == if k in Pairs(state, n) then Some(Pairs(state, n)[k]) else None
    {
      var leaf := FindLeaf(k);
      v := leaf.Get(k);
      GetIsLookup(state, n, k);
    }

    /** A root's footprint is disjoint from a leaf outside of it, so the leaf is
        not in the tree. */
    lemma Outside(leaf: Leaf)
      requires Valid() && leaf.Footprint() !! Footprint(root)
      ensures leaf !in Leaves(StoreTips(state))
    {
      LiveTips();
    }

    /** insert_core: state becomes what Insert computes.  The result says
        whether newLeaf has become part of the tree. */
    method InsertCore(k: Key, v: Value, newLeaf: Leaf) returns (ret: bool)
      requires Valid() && k !in Pairs(state, n) && k != INVALID
      requires newLeaf == preAlloc
      modifies this`root, this`depth, this`state, this`repr, repr
      ensures Inserted(old(state), old(newLeaf.View()), k, v, newLeaf)
      ensures ret == TakesCandidate(n, old(state), k)
      ensures fresh(repr - old(repr))
      ensures !ret ==> Spare(newLeaf, n) && newLeaf.Footprint() !! Footprint(root)
    {
      if root == Null {
        InsertFirst(k, v, newLeaf);
        ret := true;
      } else {
        ret := InsertBelowRoot(k, v, newLeaf);
      }
    }

    /** The object represents what Insert makes of the state before. */
    ghost predicate Inserted(before: State, blank: Page, k: Key, v: Value, newLeaf: Leaf)
      reads this, repr
    {
      && n >= 2 && (before.root.Some? ==> Shaped(before.root.value, n, before.depth)) && blank.Blank(n)
      && this !in repr && newLeaf.Footprint() <= repr
      && state == Insert(n, before, k, v, Tip(newLeaf, blank))
      && state.root.Some? && state.depth == depth && root != Null
      && Inner.Inside(root, repr) && Inner.Represents(root, state.root.value, n, depth)
    }

    /** An empty tree: the candidate becomes the root leaf.  The program passes
        it as its own candidate, but a blank leaf does not split. */
    method InsertFirst(k: Key, v: Value, newLeaf: Leaf)
      requires Valid() && root == Null && k != INVALID && newLeaf == preAlloc
      modifies this`root, this`state, newLeaf.Footprint()
      ensures Inserted(old(state), old(newLeaf.View()), k, v, newLeaf)
    {
      ghost var blank := newLeaf.View();
      BlankEntries(blank, n);
      var _ := newLeaf.RawInsert(n, k, v, null);
      root := LeafPtr(newLeaf);
      state := Insert(n, state, k, v, Tip(newLeaf, blank));
    }

    method InsertBelowRoot(k: Key, v: Value, newLeaf: Leaf) returns (ret: bool)
      requires Valid() && root != Null && k !in Pairs(state, n) && k != INVALID && newLeaf == preAlloc
      modifies this`root, this`depth, this`state, this`repr, repr
      ensures Inserted(old(state), old(newLeaf.View()), k, v, newLeaf)
      ensures ret == TakesCandidate(n, old(state), k)
      ensures fresh(repr - old(repr))
      ensures !ret ==> Spare(newLeaf, n) && newLeaf.Footprint() !! Footprint(root)
    {
      ghost var s0, blank := state, newLeaf.View();
      var kid, up;
      ghost var r;
      kid, up, ret, r := InsertRoot(k, v, newLeaf);
      assert GrowRoot(r, s0.depth) == Insert(n, s0, k, v, Tip(newLeaf, blank));
      RaiseRoot(kid, up, r);
    }

    method RaiseRoot(kid: Ptr, up: Key, ghost r: Insertion)
      requires n >= 1 && root != Null && Inner.Outcome(n, depth, root, r, kid, up)
      requires this !in Footprint(root) + Footprint(kid) && this !in repr
      modifies this`root, this`depth, this`state, this`repr
      ensures state == GrowRoot(r, old(depth)) && state.depth == depth && root != Null
      ensures this !in repr && repr >= old(repr)
          && fresh(repr - old(repr) - (old(Footprint(root)) + old(Footprint(kid))))
      ensures Inner.Inside(root, repr) && Inner.Represents(root, state.root.value, n, depth)
      ensures kid == Null ==> root == old(root)
    {
      NewRoot(kid, up, r);
      repr := repr + Footprint(root);
      state := GrowRoot(r, old(depth));
    }

    method InsertRoot(k: Key, v: Value, newLeaf: Leaf) returns (kid: Ptr, up: Key, ret: bool, ghost r: Insertion)
      requires Valid() && root != Null && k !in Pairs(state, n) && k != INVALID && newLeaf == preAlloc
      modifies repr
      ensures n >= 2 && state.root.Some? && Shaped(state.root.value, n, state.depth) && old(newLeaf.View()).Blank(n)
      ensures r == InsertT(n, depth, state.root.value, k, v, Tip(newLeaf, old(newLeaf.View())))
      ensures Inner.Outcome(n, depth, root, r, kid, up)
      ensures ret == TakesCandidate(n, state, k)
      ensures this !in Footprint(root) + Footprint(kid)
      ensures fresh(Footprint(root) + Footprint(kid) - repr)
      ensures !ret ==> kid == Null && Spare(newLeaf, n) && newLeaf.Footprint() !! Footprint(root)
    {
      AbsentInsertable(state, n, k);
      kid, up, ret, r := Inner.InsertPtr(n, root, state.root.value, k, v, depth, newLeaf, MIN_KEY, INVALID);
    }

    /** A root that split gets a new root above it. */
    method NewRoot(kid: Ptr, up: Key, ghost r: Insertion)
      requires n >= 1 && root != Null && Inner.Outcome(n, depth, root, r, kid, up)
      requires this !in Footprint(root) + Footprint(kid)
      modifies this`root, this`depth
      ensures root != Null && depth == GrowRoot(r, old(depth)).depth
      ensures Inner.Represents(root, GrowRoot(r, old(depth)).root.value, n, depth)
      ensures this !in Footprint(root)
      ensures fresh(Footprint(root) - old(Footprint(root)) - old(Footprint(kid)))
      ensures kid == Null ==> root == old(root)
    {
      if kid != Null {
        var newRoot := Inner.Parent(n, up, root, kid, depth, r.tree, r.sib.tree);
        root := InnerPtr(newRoot);
        depth := depth + 1;
      }
    }

    // ---------- leaves from a pool ----------

    /** The leaves of the tree, and the spare one, occupy disjoint blocks that
        the allocator handed out, and there are no other blocks in use. */
    ghost predicate Pooled(alloc: XAlloc)
      reads this, repr, alloc
    {
      && Valid() && alloc.Valid() && alloc !in repr
      && alloc.curNum == |StoreTips(state)| + (if preAlloc == null then 0 else 1)
      && InBlocks(Leaves(StoreTips(state)), alloc.pool, alloc.unit,
                  alloc.pool + alloc.curSz - if preAlloc == null then 0 else alloc.unit)
      && (preAlloc != null ==> alloc.unit <= alloc.curSz && preAlloc.addr == alloc.pool + alloc.curSz - alloc.unit)
    }

    /** Room for the leaves of a tree of that many keys. */
    ghost predicate Roomy(alloc: XAlloc, keys: nat)
    {
      n >= 2 && Span(alloc.unit, EstimatedLeaves(n, keys)) <= alloc.total
    }

    /** Allocate the blank leaf for the next split. */
    method InitPreAllocedLeaf(alloc: XAlloc)
      requires alloc.Valid() && Span(alloc.unit, alloc.curNum + 1) <= alloc.total
      modifies this`preAlloc, this`repr, alloc
      ensures alloc.Valid() && alloc.curNum == old(alloc.curNum) + 1 && alloc.curSz == old(alloc.curSz) + alloc.unit
      ensures preAlloc != null && fresh(preAlloc.Footprint()) && Spare(preAlloc, n)
      ensures preAlloc.addr == alloc.pool + old(alloc.curSz) && repr == old(repr) + preAlloc.Footprint()
    {
      var block := alloc.Alloc();
      preAlloc := new Leaf(n, block.value);
      repr := repr + preAlloc.Footprint();
    }

    /** insert: one step of a run of inserts, so the stored pairs become the old
        ones and the new one.  The result is true exactly when the spare leaf has
        been linked; a fresh one has then taken its place, and in a pool sized
        for keys pairs the allocation cannot fail. */
    method InsertWAlloc(k: Key, v: Value, alloc: XAlloc, ghost keys: nat) returns (ret: bool, ghost op: Runs.Op)
      requires Pooled(alloc) && Roomy(alloc, keys)
      requires k !in Pairs(state, n) && k != INVALID && |Pairs(state, n)| < keys
      modifies this, repr, alloc
      ensures Pooled(alloc) && fresh(repr - old(repr))
      ensures op.k == k && op.v == v && Runs.Follows(n, old(state), op, state)
      ensures Pairs(state, n) == old(Pairs(state, n))[k := v]
      ensures root != Null && preAlloc != null
      ensures |StoreTips(state)| == old(|StoreTips(state)|) + if ret then 1 else 0
    {
      EnsureSpare(alloc, keys);
      ghost var s0 := state;
      SpareReady(k, v);
      op := SpareOp(k, v);
      ret := InsertAndTake(k, v, alloc, keys, op);
      AddedPairs(n, s0, op, state);
    }

    /** The step that an insert with the spare leaf is. */
    ghost function SpareOp(k: Key, v: Value): Runs.Op
      reads this, repr
      requires Valid() && preAlloc != null
    {
      Runs.Op(k, v, Tip(preAlloc, preAlloc.View()))
    }

    lemma SpareReady(k: Key, v: Value)
      requires Valid() && preAlloc != null && k !in Pairs(state, n) && k != INVALID
      ensures Runs.Ready(n, state, SpareOp(k, v))
    {
      Outside(preAlloc);
    }

    method InsertAndTake(k: Key, v: Value, alloc: XAlloc, ghost keys: nat, ghost op: Runs.Op) returns (ret: bool)
      requires Pooled(alloc) && Roomy(alloc, keys) && preAlloc != null && |Pairs(state, n)| <= keys
      requires op == SpareOp(k, v) && Runs.Ready(n, state, op)
      modifies this, repr, alloc
      ensures Pooled(alloc) && fresh(repr - old(repr)) && root != Null && preAlloc != null
      ensures state == Runs.After(n, old(state), op)
      ensures |StoreTips(state)| == old(|StoreTips(state)|) + if ret then 1 else 0
    {
      RoomFor(alloc, keys);
      ret := InsertPooled(k, v, alloc, op);
      Replenish(ret, alloc);
    }

    /** Replace the spare leaf if it has been linked. */
    method Replenish(linked: bool, alloc: XAlloc)
      requires !linked ==> Pooled(alloc) && preAlloc != null
      requires linked ==>
        && Rooted() && alloc.Valid() && alloc !in repr
        && alloc.curNum == |StoreTips(state)| && Span(alloc.unit, alloc.curNum + 1) <= alloc.total
        && InBlocks(Leaves(StoreTips(state)), alloc.pool, alloc.unit, alloc.pool + alloc.curSz)
      modifies this`preAlloc, this`repr, alloc
      ensures Pooled(alloc) && preAlloc != null && fresh(repr - old(repr))
    {
      if linked {
        TakePreAllocedLeaf(alloc);
      }
    }

    method InsertPooled(k: Key, v: Value, alloc: XAlloc, ghost op: Runs.Op) returns (ret: bool)
      requires Pooled(alloc) && preAlloc != null && op == SpareOp(k, v) && Runs.Ready(n, state, op)
      modifies this`root, this`depth, this`state, this`repr, repr
      ensures Rooted() && alloc !in repr && fresh(repr - old(repr)) && root != Null
      ensures state == Runs.After(n, old(state), op)
      ensures |StoreTips(state)| == old(|StoreTips(state)|) + if ret then 1 else 0
      ensures ret ==>
        && alloc.curNum == |StoreTips(state)|
        && InBlocks(Leaves(StoreTips(state)), alloc.pool, alloc.unit, alloc.pool + alloc.curSz)
      ensures !ret ==> Pooled(alloc)
    {
      ghost var leaves, end := Leaves(StoreTips(state)), alloc.pool + alloc.curSz - alloc.unit;
      BlocksAdd(leaves, preAlloc, alloc.pool, alloc.unit, end);
      ret := InsertSpare(k, v, op);
      assert Leaves(StoreTips(state)) == if ret then leaves + {preAlloc} else leaves;
    }

    method EnsureSpare(alloc: XAlloc, ghost keys: nat)
      requires Pooled(alloc) && Roomy(alloc, keys) && |Pairs(state, n)| <= keys
      modifies this`preAlloc, this`repr, alloc
      ensures Pooled(alloc) && preAlloc != null && fresh(repr - old(repr))
    {
      if preAlloc == null {
        RoomFor(alloc, keys);
        SpanMonotone(alloc.unit, alloc.curNum + 1, |StoreTips(state)| + 2);
        InitPreAllocedLeaf(alloc);
      }
    }

    /** The insert itself, with the spare leaf as candidate. */
    method InsertSpare(k: Key, v: Value, ghost op: Runs.Op) returns (ret: bool)
      requires Valid() && preAlloc != null && op == SpareOp(k, v) && Runs.Ready(n, state, op)
      modifies this`root, this`depth, this`state, this`repr, repr
      ensures Rooted() && fresh(repr - old(repr)) && (!ret ==> Valid()) && root != Null
      ensures state == Runs.After(n, old(state), op)
      ensures |StoreTips(state)| == old(|StoreTips(state)|) + if ret then 1 else 0
      ensures Leaves(StoreTips(state)) == old(Leaves(StoreTips(state))) + if ret then {preAlloc} else {}
    {
      InsertOk(n, state, k, v, op.cand);
      ghost var s0 := state;
      ret := InsertCore(k, v, preAlloc);
      LinkedCount(s0, ret);
    }

    lemma LinkedCount(s0: State, ret: bool)
      requires preAlloc != null && WellFormed(s0, n) && WellFormed(state, n) && preAlloc !in Leaves(StoreTips(s0))
      requires Leaves(StoreTips(state)) == Leaves(StoreTips(s0)) + if ret then {preAlloc} else {}
      ensures |StoreTips(state)| == |StoreTips(s0)| + if ret then 1 else 0
    {
      SeparateCount(StoreTips(s0));
      SeparateCount(StoreTips(state));
    }

    /** The spare leaf has become part of the tree: allocate another. */
    method TakePreAllocedLeaf(alloc: XAlloc)
      requires Rooted() && alloc.Valid() && alloc !in repr
      requires alloc.curNum == |StoreTips(state)| && Span(alloc.unit, alloc.curNum + 1) <= alloc.total
      requires InBlocks(Leaves(StoreTips(state)), alloc.pool, alloc.unit, alloc.pool + alloc.curSz)
      modifies this`preAlloc, this`repr, alloc
      ensures Pooled(alloc) && preAlloc != null && fresh(repr - old(repr))
    {
      InitPreAllocedLeaf(alloc);
      assert Rooted();
      assert alloc.pool + alloc.curSz - alloc.unit == alloc.pool + old(alloc.curSz);
    }

    lemma RoomFor(alloc: XAlloc, keys: nat)
      requires WellFormed(state, n) && Roomy(alloc, keys) && |Pairs(state, n)| <= keys && alloc.unit > 0
      ensures Span(alloc.unit, |StoreTips(state)| + 2) <= alloc.total
    {
      PoolSuffices(state, n, keys);
      SpanMonotone(alloc.unit, |StoreTips(state)| + 2, EstimatedLeaves(n, keys));
    }
  }

  /** What one step of a run does to the stored pairs. */
  lemma AddedPairs(n: nat, s: State, op: Runs.Op, s': State)
    requires Runs.Follows(n, s, op, s')
    ensures WellFormed(s, n) && WellFormed(s', n) && Pairs(s', n) == Pairs(s, n)[op.k := op.v]
    ensures |Pairs(s', n)| <= |Pairs(s, n)| + 1
  {
    Runs.StepPairs(n, s, op);
    AddOne(Pairs(s, n), op.k, op.v);
  }

  lemma BlocksAdd(leaves: set<Leaf>, leaf: Leaf, lo: nat, unit: nat, hi: int)
    requires InBlocks(leaves, lo, unit, hi) && lo <= leaf.addr == hi
    ensures InBlocks(leaves + {leaf}, lo, unit, hi + unit)
  {}

  /** The number of leaves the server sets aside for that many keys. */
  function EstimatedLeaves(n: nat, keys: nat): nat
    requires n >= 2
  {
    keys / (n / 2) + 16
  }

  lemma AddOne(m: map<Key, Value>, k: Key, v: Value)
    ensures |m[k := v]| <= |m| + 1
  {
    assert m[k := v].Keys == m.Keys + {k};
    assert |m[k := v]| == |m[k := v].Keys| && |m| == |m.Keys|;
  }

  /** Two leaves do not overlap in memory. */
  ghost predicate ApartInMemory(a: Leaf, b: Leaf, unit: nat) {
    a.addr + unit <= b.addr || b.addr + unit <= a.addr
  }

  /** The leaves occupy disjoint blocks between lo and hi. */
  ghost predicate InBlocks(leaves: set<Leaf>, lo: nat, unit: nat, hi: int) {
    && (forall a :: a in leaves ==> lo <= a.addr && a.addr + unit <= hi)
    && forall a, b {:trigger ApartInMemory(a, b, unit)} :: a in leaves && b in leaves && a != b ==>
        ApartInMemory(a, b, unit)
  }
}
