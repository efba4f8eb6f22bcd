/** The whole tree as a value: insert_core with its root cases, and what every
    run of inserts keeps. */
module Store {
  import opened Keys
  import opened XNode
  import opened BTree
  import opened TreeOrder
  import opened LeafChain
  import opened Occupancy

  datatype State = State(root: Option<Tree>, depth: nat)

  const EMPTY := State(None, 0)

  /** A split root gets a new root above it. */
  function GrowRoot(r: Insertion, d: nat): State {
    match r.sib
    case NoSib => State(Some(r.tree), d)
    case Sib(up, s) => State(Some(Fork([up], [r.tree, s])), d + 1)
  }

  /** insert_core: an empty tree takes the candidate as its root leaf. */
  function Insert(n: nat, s: State, k: Key, v: Value, cand: Tip): State
    requires n >= 2 && (s.root.Some? ==> Shaped(s.root.value, n, s.depth)) && cand.page.Blank(n)
  {
    match s.root
    case None => State(Some(Bottom(Tip(cand.leaf, Put(cand.page, k, v)))), 0)
    case Some(t) => GrowRoot(InsertT(n, s.depth, t, k, v, cand), s.depth)
  }

  /** insert_core's result: the candidate has been linked into the tree. */
  function TakesCandidate(n: nat, s: State, k: Key): bool
    requires s.root.Some? ==> Shaped(s.root.value, n, s.depth)
  {
    s.root.Some? ==> FindTip(s.root.value, n, s.depth, k).page.Full()
  }

  function StoreTips(s: State): seq<Tip> {
    if s.root.Some? then Tips(s.root.value) else []
  }

  /** What holds of the tree between inserts. */
  ghost predicate WellFormed(s: State, n: nat) {
    && n >= 2
    && (s.root.None? ==> s.depth == 0)
    && (s.root.Some? ==>
          && Shaped(s.root.value, n, s.depth) && Ordered(s.root.value, MIN_KEY, INVALID)
          && HalfFull(s.root.value, n, s.depth))
    && Linked(StoreTips(s), null) && Separate(StoreTips(s))
  }

  /** Once there are inner nodes, every leaf and every inner node but the root
      is at least half full. */
  ghost predicate HalfFull(t: Tree, n: nat, d: nat) {
    && BushyRoot(t, n)
    && (d >= 1 ==> Filled(Tips(t), n))
    && (d == 0 ==> t.Bottom? && |KeySet(t.tip.page.keys)| > 0)
  }

  lemma StorePages(s: State, n: nat)
    requires WellFormed(s, n)
    ensures PagesOk(StoreTips(s), n)
  {
    if s.root.Some? {
      ShapedPages(s.root.value, n, s.depth);
    }
  }

  /** The pairs stored in the tree. */
  ghost function Pairs(s: State, n: nat): map<Key, Value>
    requires WellFormed(s, n)
  {
    StorePages(s, n);
    Contents(StoreTips(s), n)
  }

  /** Get on a tree with a root is a lookup in its pairs. */
  lemma GetIsLookup(s: State, n: nat, k: Key)
    requires WellFormed(s, n) && s.root.Some? && k != INVALID
    ensures Lookup(s.root.value, n, s.depth, k) == if k in Pairs(s, n) then Some(Pairs(s, n)[k]) else None
  {
    LookupContents(s.root.value, n, s.depth, MIN_KEY, INVALID, k);
  }

  /** A key the tree does not hold can be inserted into it. */
  lemma AbsentInsertable(s: State, n: nat, k: Key)
    requires WellFormed(s, n) && s.root.Some? && k !in Pairs(s, n) && k != INVALID
    ensures Insertable(n, s.depth, s.root.value, MIN_KEY, INVALID, k)
  {
    GetIsLookup(s, n, k);
  }

  // ---------- one insert ----------

  lemma GrowRootTips(r: Insertion, d: nat)
    ensures StoreTips(GrowRoot(r, d)) == Flat(r)
  {
    if r.sib.Sib? {
      var a, b := r.tree, r.sib.tree;
      assert TipsAll([a, b]) == Tips(a) + TipsAll([a, b][1..]);
      assert [a, b][1..] == [b] && TipsAll([b]) == Tips(b) + TipsAll([b][1..]);
    }
  }

  /** The leaves after an insert into a tree with a root. */
  lemma InsertStoreTips(n: nat, s: State, k: Key, v: Value, cand: Tip)
    requires WellFormed(s, n) && s.root.Some? && k !in Pairs(s, n) && k != INVALID && cand.page.Blank(n)
    ensures var t, pos := s.root.value, LeafPos(s.root.value, n, s.depth, k);
      && pos < |Tips(t)| && Tips(t)[pos].page.Valid(n)
      && Tips(t)[pos] == FindTip(t, n, s.depth, k)
      && SplitsAt(Tips(t), pos, k)
      && StoreTips(Insert(n, s, k, v, cand)) == InsertTips(Tips(t), pos, k, v, cand)
  {
    var t := s.root.value;
    AbsentInsertable(s, n, k);
    FindSplits(t, n, s.depth, MIN_KEY, INVALID, k);
    InsertFlat(n, s.depth, t, MIN_KEY, INVALID, k, v, cand);
    GrowRootTips(InsertT(n, s.depth, t, k, v, cand), s.depth);
  }

  lemma GrowRootShape(r: Insertion, n: nat, d: nat)
    requires Good(r, n, d, MIN_KEY, INVALID) && n >= 2
    ensures var s := GrowRoot(r, d);
      Shaped(s.root.value, n, s.depth) && Ordered(s.root.value, MIN_KEY, INVALID)
  {
    if r.sib.Sib? {
      var up := r.sib.up;
      assert Fence(MIN_KEY, [up], INVALID, 1) == up;
      assert Rising(up, [up][1..], INVALID);
    }
  }

  /** An insert keeps the shape and the order of the tree. */
  lemma InsertShape(n: nat, s: State, k: Key, v: Value, cand: Tip)
    requires WellFormed(s, n) && s.root.Some? && k !in Pairs(s, n) && k != INVALID && cand.page.Blank(n)
    ensures var s' := Insert(n, s, k, v, cand);
      && s'.root.Some? && Shaped(s'.root.value, n, s'.depth) && Ordered(s'.root.value, MIN_KEY, INVALID)
  {
    AbsentInsertable(s, n, k);
    InsertGood(n, s.depth, s.root.value, MIN_KEY, INVALID, k, v, cand);
    GrowRootShape(InsertT(n, s.depth, s.root.value, k, v, cand), n, s.depth);
  }

  lemma InsertBushyRoot(n: nat, s: State, k: Key, v: Value, cand: Tip)
    requires n >= 2 && cand.page.Blank(n)
    requires s.root.Some? && Shaped(s.root.value, n, s.depth) && BushyRoot(s.root.value, n)
    ensures BushyRoot(Insert(n, s, k, v, cand).root.value, n)
  {
    var r := InsertT(n, s.depth, s.root.value, k, v, cand);
    InsertBushy(n, s.depth, s.root.value, k, v, cand);
    if r.sib.Sib? {
      assert AllBushy([r.tree, r.sib.tree], n);
    }
  }

  lemma InsertFilledRoot(n: nat, s: State, k: Key, v: Value, cand: Tip)
    requires WellFormed(s, n) && s.root.Some? && k !in Pairs(s, n) && k != INVALID && cand.page.Blank(n)
    requires s.depth >= 1 || TakesCandidate(n, s, k)
    ensures Filled(StoreTips(Insert(n, s, k, v, cand)), n)
  {
    AbsentInsertable(s, n, k);
    InsertStoreTips(n, s, k, v, cand);
    var tips, pos := Tips(s.root.value), LeafPos(s.root.value, n, s.depth, k);
    assert s.depth == 0 ==> tips == [s.root.value.tip] && pos == 0;
    InsertFilled(tips, n, pos, k, v, cand);
  }

  lemma SmallRoot(n: nat, s: State, k: Key, v: Value, cand: Tip)
    requires WellFormed(s, n) && s.root.Some? && k !in Pairs(s, n) && k != INVALID && cand.page.Blank(n)
    requires s.depth == 0 && !TakesCandidate(n, s, k)
    ensures var s' := Insert(n, s, k, v, cand);
      s'.depth == 0 && s'.root == Some(Bottom(Tip(s.root.value.tip.leaf, Put(s.root.value.tip.page, k, v))))
    ensures |KeySet(Put(s.root.value.tip.page, k, v).keys)| > 0
  {
    AbsentInsertable(s, n, k);
    PutValid(s.root.value.tip.page, n, k, v);
    assert k in KeySet(Put(s.root.value.tip.page, k, v).keys);
  }

  /** A tree is one level higher, or the same, after an insert, and never a
      lone leaf again once it had inner nodes. */
  lemma InsertDepth(n: nat, s: State, k: Key, v: Value, cand: Tip)
    requires n >= 2 && s.root.Some? && Shaped(s.root.value, n, s.depth) && cand.page.Blank(n)
    ensures s.depth <= Insert(n, s, k, v, cand).depth <= s.depth + 1
    ensures s.depth == 0 ==> Insert(n, s, k, v, cand).depth == if TakesCandidate(n, s, k) then 1 else 0
  {
    if s.depth == 0 && s.root.value.tip.page.Full() {
      assert |LeafStep(s.root.value.tip, k, v, cand)[1].page.keys| == n;
    }
  }

  /** An insert keeps the tree half full. */
  lemma InsertHalfFull(n: nat, s: State, k: Key, v: Value, cand: Tip)
    requires WellFormed(s, n) && s.root.Some? && k !in Pairs(s, n) && k != INVALID && cand.page.Blank(n)
    ensures var s' := Insert(n, s, k, v, cand);
      s'.root.Some? && HalfFull(s'.root.value, n, s'.depth)
  {
    InsertBushyRoot(n, s, k, v, cand);
    InsertDepth(n, s, k, v, cand);
    if s.depth >= 1 || TakesCandidate(n, s, k) {
      InsertFilledRoot(n, s, k, v, cand);
    } else {
      SmallRoot(n, s, k, v, cand);
    }
  }

  lemma FirstInsert(n: nat, k: Key, v: Value, cand: Tip)
    requires n >= 2 && k != INVALID && cand.page.Blank(n) && cand.page.next == null
    ensures var s' := Insert(n, EMPTY, k, v, cand);
      && WellFormed(s', n) && Pairs(s', n) == map[k := v] && Leaves(StoreTips(s')) == {cand.leaf}
  {
    FirstPut(cand.page, n, k, v);
    var tip := Tip(cand.leaf, Put(cand.page, k, v));
    assert k in tip.page.keys && k in KeySet(tip.page.keys);
    ContentsOne(tip, n);
    assert StoreTips(Insert(n, EMPTY, k, v, cand)) == [tip];
    FullSize(tip.page, n);
  }

  /** The leaves and links after an insert. */
  lemma InsertChain(n: nat, s: State, k: Key, v: Value, cand: Tip)
    requires WellFormed(s, n) && s.root.Some? && k !in Pairs(s, n) && k != INVALID
    requires cand.page.Blank(n) && cand.leaf !in Leaves(StoreTips(s))
    ensures var tips := StoreTips(Insert(n, s, k, v, cand));
      && Linked(tips, null) && Separate(tips)
      && Leaves(tips) == Leaves(StoreTips(s)) + if TakesCandidate(n, s, k) then {cand.leaf} else {}
  {
    StorePages(s, n);
    InsertStoreTips(n, s, k, v, cand);
    InsertLinked(StoreTips(s), n, LeafPos(s.root.value, n, s.depth, k), k, v, cand);
  }

  lemma InsertPairs(n: nat, s: State, k: Key, v: Value, cand: Tip)
    requires WellFormed(s, n) && s.root.Some? && k !in Pairs(s, n) && k != INVALID && cand.page.Blank(n)
    requires WellFormed(Insert(n, s, k, v, cand), n)
    ensures Pairs(Insert(n, s, k, v, cand), n) == Pairs(s, n)[k := v]
  {
    StorePages(s, n);
    AbsentInsertable(s, n, k);
    InsertStoreTips(n, s, k, v, cand);
    InsertContents(StoreTips(s), n, LeafPos(s.root.value, n, s.depth, k), k, v, cand);
  }

  /** The refinement: inserting an absent key keeps everything WellFormed says,
      and the stored pairs become the old ones and the new one.  The set of
      leaves grows by the candidate exactly when insert_core says so. */
  lemma InsertOk(n: nat, s: State, k: Key, v: Value, cand: Tip)
    requires WellFormed(s, n) && k !in Pairs(s, n) && k != INVALID
    requires cand.page.Blank(n) && cand.page.next == null && cand.leaf !in Leaves(StoreTips(s))
    ensures var s' := Insert(n, s, k, v, cand);
      && WellFormed(s', n) && Pairs(s', n) == Pairs(s, n)[k := v]
      && Leaves(StoreTips(s')) == Leaves(StoreTips(s)) + if TakesCandidate(n, s, k) then {cand.leaf} else {}
  {
    if s.root.None? {
      assert s == EMPTY;
      FirstInsert(n, k, v, cand);
    } else {
      InsertShape(n, s, k, v, cand);
      InsertHalfFull(n, s, k, v, cand);
      InsertChain(n, s, k, v, cand);
      InsertPairs(n, s, k, v, cand);
    }
  }

  // ---------- size ----------

  lemma SeparateCount(tips: seq<Tip>)
    requires Separate(tips)
    ensures |Leaves(tips)| == |tips|
  {
    if |tips| == 0 {
      assert Leaves(tips) == {};
    } else {
      var m := |tips| - 1;
      forall i, j | 0 <= i < j < m ensures Differ(tips[..m][i], tips[..m][j]) { assert Differ(tips[i], tips[j]); }
      SeparateCount(tips[..m]);
      assert Leaves(tips) == Leaves(tips[..m]) + {tips[m].leaf} by {
        forall x | x in Leaves(tips) ensures x in Leaves(tips[..m]) + {tips[m].leaf} {
          var i :| 0 <= i < |tips| && tips[i].leaf == x;
          if i < m { assert tips[..m][i].leaf == x; }
        }
        forall i | 0 <= i < m ensures tips[..m][i].leaf in Leaves(tips) { assert tips[i].leaf in Leaves(tips); }
      }
      forall i | 0 <= i < m ensures tips[..m][i].leaf != tips[m].leaf { assert Differ(tips[i], tips[m]); }
    }
  }

  lemma LeavesFilled(s: State, n: nat)
    requires WellFormed(s, n) && s.depth >= 1
    ensures |Pairs(s, n)| >= |StoreTips(s)| * (n / 2)
  {
    StorePages(s, n);
    OrderedAscending(s.root.value, MIN_KEY, INVALID);
    FilledCount(StoreTips(s), n);
  }

  lemma LeavesByDepth(s: State, n: nat)
    requires WellFormed(s, n) && s.depth >= 1
    ensures |StoreTips(s)| >= 2 * Pow((n + 1) / 2, s.depth - 1)
  {
    RootCount(s.root.value, n, s.depth);
  }

  lemma ScaleBound(a: nat, b: nat, m: nat, held: nat)
    requires a <= b && b * m <= held
    ensures a * m <= held
  {
    MulMonotone(a, b, m);
  }

  /** The depth of a tree with inner nodes bounds its leaves, and with n/2 keys
      per leaf its keys, from below exponentially. */
  lemma HeightBound(s: State, n: nat)
    requires WellFormed(s, n) && s.depth >= 1
    ensures |StoreTips(s)| >= 2 * Pow((n + 1) / 2, s.depth - 1)
    ensures |Pairs(s, n)| >= (2 * Pow((n + 1) / 2, s.depth - 1)) * (n / 2)
  {
    LeavesFilled(s, n);
    LeavesByDepth(s, n);
    ScaleBound(2 * Pow((n + 1) / 2, s.depth - 1), |StoreTips(s)|, n / 2, |Pairs(s, n)|);
  }

  lemma {:induction false} PowEight(e: nat)
    requires e >= 9
    ensures Pow(8, e) >= 0x800_0000
    decreases e
  {
    if e == 9 {
      PowSum(8, 1, 1);
      PowSum(8, 2, 1);
      PowSum(8, 3, 3);
      PowSum(8, 6, 3);
    } else {
      PowEight(e - 1);
      PowSum(8, 1, e - 1);
    }
  }

  /** With 16 slots, as the benchmarks have them, a tree with fewer than 2^28 pairs
      is at most eight levels deep. */
  lemma DepthSixteen(s: State, n: nat)
    requires n == 16 && WellFormed(s, n) && |Pairs(s, n)| < 0x1000_0000
    ensures s.depth <= 8
  {
    if s.depth >= 9 {
      HeightBound(s, n);
      DeepIsLarge(Pow((n + 1) / 2, s.depth - 1), (n + 1) / 2, s.depth, n / 2, |Pairs(s, n)|);
    }
  }

  lemma DeepIsLarge(p: nat, b: nat, d: nat, half: nat, pairs: nat)
    requires b == half == 8 && d >= 9 && p == Pow(b, d - 1) && pairs >= (2 * p) * half
    ensures pairs >= 0x1000_0000
  {
    PowSum(b, 1, d - 1);
    PowEight(d);
  }

  lemma LeafBound(s: State, n: nat)
    requires WellFormed(s, n)
    ensures |StoreTips(s)| <= 1 || |StoreTips(s)| * (n / 2) <= |Pairs(s, n)|
  {
    if s.depth >= 1 {
      LeavesFilled(s, n);
    }
  }

  /** A pool of keys/(n/2) + 16 leaves covers the linked leaves and the spare
      one, with room to take another. */
  lemma PoolSuffices(s: State, n: nat, keys: nat)
    requires WellFormed(s, n) && |Pairs(s, n)| <= keys
    ensures |StoreTips(s)| + 2 <= keys / (n / 2) + 16
  {
    LeafBound(s, n);
    PoolArithmetic(|StoreTips(s)|, n / 2, |Pairs(s, n)|, keys);
  }

  lemma PoolArithmetic(a: nat, b: nat, held: nat, keys: nat)
    requires b > 0 && held <= keys && (a <= 1 || a * b <= held)
    ensures a <= keys / b + 1
  {
    if a > keys / b + 1 {
      var q := keys / b;
      MulMonotone(q + 1, a, b);
      DivModIs(keys, b);
      assert false;
    }
  }

  lemma DivModIs(x: nat, b: nat)
    requires b > 0
    ensures x < (x / b + 1) * b
  {
    assert x == (x / b) * b + x % b;
  }
}
