/** What holds across whole runs of inserts: the stored pairs, where a key that
    once was in a leaf can be found later, and what an unchanged incarnation tag
    proves about a leaf that was cached earlier. */
module Runs {
  import opened Keys
  import opened XNode
  import opened BTree
  import opened LeafChain
  import opened Store

  datatype Op = Op(k: Key, v: Value, cand: Tip)

  /** op inserts an absent key, with a blank leaf at hand that the tree does not
      contain. */
  ghost predicate Ready(n: nat, s: State, op: Op) {
    && WellFormed(s, n) && op.k !in Pairs(s, n) && op.k != INVALID
    && op.cand.page.Blank(n) && op.cand.page.next == null && op.cand.page.incar == 0
    && op.cand.leaf !in Leaves(StoreTips(s))
  }

  function After(n: nat, s: State, op: Op): State
    requires n >= 2 && (s.root.Some? ==> Shaped(s.root.value, n, s.depth)) && op.cand.page.Blank(n)
  {
    Insert(n, s, op.k, op.v, op.cand)
  }

  /** The operation can be performed in s and leads to s'. */
  ghost predicate Follows(n: nat, s: State, op: Op, s': State) {
    Ready(n, s, op) && s' == After(n, s, op)
  }

  /** Operation i of a run leads from its state i to the next. */
  ghost predicate Leads(n: nat, ss: seq<State>, ops: seq<Op>, i: nat)
    requires i < |ops| < |ss|
  {
    Follows(n, ss[i], ops[i], ss[i + 1])
  }

  /** ss are the states of a run of the operations. */
  ghost predicate Run(n: nat, ss: seq<State>, ops: seq<Op>) {
    && |ss| == |ops| + 1
    && WellFormed(ss[0], n)
    && forall i {:trigger Leads(n, ss, ops, i)} :: 0 <= i < |ops| ==> Leads(n, ss, ops, i)
  }

  /** The pairs that the first m operations insert. */
  function Updates(ops: seq<Op>, m: nat): map<Key, Value>
    requires m <= |ops|
  {
    if m == 0 then map[] else Updates(ops, m - 1)[ops[m - 1].k := ops[m - 1].v]
  }

  /** A run goes on with any operation that its last state is ready for. */
  lemma RunMore(n: nat, ss: seq<State>, ops: seq<Op>, op: Op, s: State)
    requires Run(n, ss, ops) && Follows(n, ss[|ops|], op, s)
    ensures Run(n, ss + [s], ops + [op])
  {
    var tt, os := ss + [s], ops + [op];
    forall i | 0 <= i < |os| ensures Leads(n, tt, os, i) {
      assert i < |ops| ==> Leads(n, ss, ops, i);
    }
  }

  lemma StepPairs(n: nat, s: State, op: Op)
    requires Ready(n, s, op)
    ensures WellFormed(After(n, s, op), n)
    ensures Pairs(After(n, s, op), n) == Pairs(s, n)[op.k := op.v]
  {
    InsertOk(n, s, op.k, op.v, op.cand);
  }

  lemma NextPairs(n: nat, ss: seq<State>, ops: seq<Op>, i: nat)
    requires Run(n, ss, ops) && i < |ops| && WellFormed(ss[i], n)
    ensures WellFormed(ss[i + 1], n)
    ensures Pairs(ss[i + 1], n) == Pairs(ss[i], n)[ops[i].k := ops[i].v]
  {
    assert Leads(n, ss, ops, i);
    StepPairs(n, ss[i], ops[i]);
  }

  lemma PlusUpdate(a: map<Key, Value>, b: map<Key, Value>, k: Key, v: Value)
    ensures (a + b)[k := v] == a + b[k := v]
  {}

  /** Every state of a run is well formed, and holds the initial pairs together
      with those inserted so far. */
  lemma {:induction false} RunPairs(n: nat, ss: seq<State>, ops: seq<Op>, m: nat)
    requires Run(n, ss, ops) && m <= |ops|
    ensures WellFormed(ss[m], n)
    ensures Pairs(ss[m], n) == Pairs(ss[0], n) + Updates(ops, m)
  {
    if m > 0 {
      RunPairs(n, ss, ops, m - 1);
      NextPairs(n, ss, ops, m - 1);
      PlusUpdate(Pairs(ss[0], n), Updates(ops, m - 1), ops[m - 1].k, ops[m - 1].v);
    }
  }

  /** After a run from the empty tree, get returns the inserted value of every
      inserted key and nothing for any other. */
  lemma GetAfterRun(n: nat, ss: seq<State>, ops: seq<Op>, k: Key)
    requires Run(n, ss, ops) && ss[0] == EMPTY && |ops| > 0 && k != INVALID
    ensures var s, u := ss[|ops|], Updates(ops, |ops|);
      && s.root.Some? && Shaped(s.root.value, n, s.depth)
      && Lookup(s.root.value, n, s.depth, k) == if k in u then Some(u[k]) else None
  {
    RunPairs(n, ss, ops, |ops|);
    assert Pairs(ss[0], n) == map[];
    assert Leads(n, ss, ops, |ops| - 1);
    GetIsLookup(ss[|ops|], n, k);
  }

  // ---------- positions in the chain ----------

  /** Where leaf is among the tips, or |tips|. */
  function PosOf(tips: seq<Tip>, leaf: Leaf?): (i: nat)
    ensures i <= |tips|
    ensures i < |tips| ==> tips[i].leaf == leaf
    ensures forall j :: 0 <= j < i ==> tips[j].leaf != leaf
  {
    if |tips| == 0 || tips[0].leaf == leaf then 0
    else
      var i := PosOf(tips[1..], leaf);
      assert forall j :: 0 <= j < i + 1 ==> tips[j] == if j == 0 then tips[0] else tips[1..][j - 1];
      i + 1
  }

  lemma PosIs(tips: seq<Tip>, i: nat)
    requires Separate(tips) && i < |tips|
    ensures PosOf(tips, tips[i].leaf) == i
  {
    var p := PosOf(tips, tips[i].leaf);
    assert p < i ==> Differ(tips[p], tips[i]);
  }

  /** Where the leaf at position i is after an insert at pos. */
  function Moved(i: nat, pos: nat, s: seq<Tip>): nat
    requires |s| >= 1
  {
    if i <= pos then i else i + |s| - 1
  }

  /** An insert turns the leaf at pos into s, between unchanged neighbours. */
  ghost predicate Edit(tips: seq<Tip>, pos: nat, s: seq<Tip>) {
    && pos < |tips| && 1 <= |s| <= 2 && s[0].leaf == tips[pos].leaf
    && (|s| == 2 ==> s[1].leaf !in Leaves(tips))
    && Separate(tips) && Separate(Splice(tips, pos, s))
  }

  /** Where an insert moves the leaves, and what it leaves in them. */
  lemma EditPos(tips: seq<Tip>, pos: nat, s: seq<Tip>, i: nat)
    requires Edit(tips, pos, s) && i < |tips|
    ensures var t := Splice(tips, pos, s);
      && |t| == |tips| + |s| - 1 && Moved(i, pos, s) < |t|
      && t[Moved(i, pos, s)] == (if i == pos then s[0] else tips[i])
      && PosOf(t, tips[i].leaf) == Moved(i, pos, s)
  {
    var t := Splice(tips, pos, s);
    SpliceAt(tips, pos, s, Moved(i, pos, s));
    PosIs(t, Moved(i, pos, s));
  }

  /** The step of a run on a tree with a root, seen on its leaves. */
  function Position(n: nat, s: State, op: Op): nat
    requires s.root.Some? && Shaped(s.root.value, n, s.depth)
  {
    LeafPos(s.root.value, n, s.depth, op.k)
  }

  function Step(n: nat, s: State, op: Op): (r: seq<Tip>)
    requires s.root.Some? && Shaped(s.root.value, n, s.depth) && n >= 2 && op.cand.page.Blank(n)
  {
    LeafStep(FindTip(s.root.value, n, s.depth, op.k), op.k, op.v, op.cand)
  }

  lemma InsertSplices(tips: seq<Tip>, n: nat, pos: nat, op: Op)
    requires pos < |tips| && tips[pos].page.Valid(n) && op.cand.page.Blank(n) && n >= 2
    ensures InsertTips(tips, pos, op.k, op.v, op.cand) == Splice(tips, pos, LeafStep(tips[pos], op.k, op.v, op.cand))
  {}

  lemma StepSplices(n: nat, s: State, op: Op)
    requires Ready(n, s, op) && s.root.Some?
    ensures Position(n, s, op) < |StoreTips(s)|
    ensures StoreTips(After(n, s, op)) == Splice(StoreTips(s), Position(n, s, op), Step(n, s, op))
    ensures StoreTips(s)[Position(n, s, op)] == FindTip(s.root.value, n, s.depth, op.k)
    ensures After(n, s, op).root.Some?
  {
    InsertStoreTips(n, s, op.k, op.v, op.cand);
    InsertSplices(StoreTips(s), n, Position(n, s, op), op);
  }

  lemma StepApart(n: nat, s: State, op: Op)
    requires Ready(n, s, op)
    ensures Separate(StoreTips(s)) && Separate(StoreTips(After(n, s, op)))
  {
    InsertOk(n, s, op.k, op.v, op.cand);
  }

  lemma StepLeaves(n: nat, s: State, op: Op)
    requires Ready(n, s, op) && s.root.Some?
    ensures var r := Step(n, s, op);
      && r[0].leaf == FindTip(s.root.value, n, s.depth, op.k).leaf
      && (|r| == 2 ==> r[1].leaf !in Leaves(StoreTips(s)))
  {
    StepLinks(FindTip(s.root.value, n, s.depth, op.k), n, op.k, op.v, op.cand);
  }

  lemma StepEdits(n: nat, s: State, op: Op)
    requires Ready(n, s, op) && s.root.Some?
    ensures Edit(StoreTips(s), Position(n, s, op), Step(n, s, op))
    ensures StoreTips(After(n, s, op)) == Splice(StoreTips(s), Position(n, s, op), Step(n, s, op))
    ensures StoreTips(s)[Position(n, s, op)] == FindTip(s.root.value, n, s.depth, op.k)
    ensures After(n, s, op).root.Some?
  {
    StepSplices(n, s, op);
    StepApart(n, s, op);
    StepLeaves(n, s, op);
  }

  // ---------- reachable to the right ----------

  /** Key k is stored in leaf from, or further right but strictly before leaf
      to; with to null, anywhere to the right. */
  ghost predicate Between(tips: seq<Tip>, k: Key, from: Leaf?, to: Leaf?) {
    exists q :: PosOf(tips, from) <= q < PosOf(tips, to) && k in KeySet(tips[q].page.keys)
  }

  ghost predicate HasKey(s: seq<Tip>, k: Key) {
    1 <= |s| <= 2 && (k in KeySet(s[0].page.keys) || (|s| == 2 && k in KeySet(s[1].page.keys)))
  }

  lemma SteppedKeeps(s: seq<Tip>, tip: Tip, n: nat, op: Op, k: Key)
    requires Stepped(s, tip, n, op.k, op.v, op.cand) && k in KeySet(tip.page.keys)
    ensures HasKey(s, k)
  {
    assert k in tip.page.Entries()[op.k := op.v];
    if |s| == 1 {
      assert k in s[0].page.Entries();
    } else {
      assert k in s[0].page.Entries() || k in s[1].page.Entries();
    }
  }

  lemma StepKeeps(n: nat, s: State, op: Op, k: Key)
    requires Ready(n, s, op) && s.root.Some?
    requires k in KeySet(FindTip(s.root.value, n, s.depth, op.k).page.keys)
    ensures HasKey(Step(n, s, op), k)
  {
    AbsentInsertable(s, n, op.k);
    var tip := FindTip(s.root.value, n, s.depth, op.k);
    LeafStepOk(tip, n, op.k, op.v, op.cand);
    SteppedKeeps(Step(n, s, op), tip, n, op, k);
  }

  lemma EditBetween(tips: seq<Tip>, pos: nat, s: seq<Tip>, k: Key, from: Leaf, to: Leaf?)
    requires Edit(tips, pos, s) && Between(tips, k, from, to)
    requires to == null || to in Leaves(tips)
    requires k in KeySet(tips[pos].page.keys) ==> HasKey(s, k)
    ensures Between(Splice(tips, pos, s), k, from, to)
  {
    var q :| PosOf(tips, from) <= q < PosOf(tips, to) && k in KeySet(tips[q].page.keys);
    EditPos(tips, pos, s, PosOf(tips, from));
    EditEnd(tips, pos, s, to);
    var q' := EditHolder(tips, pos, s, k, q);
  }

  /** Where the key of position q is then. */
  lemma EditHolder(tips: seq<Tip>, pos: nat, s: seq<Tip>, k: Key, q: nat) returns (q': nat)
    requires Edit(tips, pos, s) && q < |tips| && k in KeySet(tips[q].page.keys)
    requires q == pos ==> HasKey(s, k)
    ensures q' < |Splice(tips, pos, s)| && k in KeySet(Splice(tips, pos, s)[q'].page.keys)
    ensures q' == Moved(q, pos, s) || (q == pos && |s| == 2 && q' == q + 1)
  {
    q' := if q != pos || k in KeySet(s[0].page.keys) then Moved(q, pos, s) else q + 1;
    SpliceAt(tips, pos, s, q');
  }

  /** The end of the range moves by as much as everything right of pos. */
  lemma EditEnd(tips: seq<Tip>, pos: nat, s: seq<Tip>, to: Leaf?)
    requires Edit(tips, pos, s) && (to == null || to in Leaves(tips))
    ensures PosOf(Splice(tips, pos, s), to) == Moved(PosOf(tips, to), pos, s)
  {
    if to != null {
      EditPos(tips, pos, s, PosOf(tips, to));
    }
  }

  lemma StepBetween(n: nat, s: State, op: Op, k: Key, from: Leaf, to: Leaf?)
    requires Ready(n, s, op) && s.root.Some? && Between(StoreTips(s), k, from, to)
    requires to == null || to in Leaves(StoreTips(s))
    ensures After(n, s, op).root.Some? && Between(StoreTips(After(n, s, op)), k, from, to)
    ensures to == null || to in Leaves(StoreTips(After(n, s, op)))
  {
    StepEdits(n, s, op);
    var pos := Position(n, s, op);
    if k in KeySet(StoreTips(s)[pos].page.keys) {
      StepKeeps(n, s, op, k);
    }
    EditBetween(StoreTips(s), pos, Step(n, s, op), k, from, to);
    SpliceLeaves(StoreTips(s), pos, Step(n, s, op));
  }

  lemma NextBetween(n: nat, ss: seq<State>, ops: seq<Op>, i: nat, k: Key, from: Leaf, to: Leaf?)
    requires Run(n, ss, ops) && i < |ops| && ss[i].root.Some? && Between(StoreTips(ss[i]), k, from, to)
    requires to == null || to in Leaves(StoreTips(ss[i]))
    ensures ss[i + 1].root.Some? && Between(StoreTips(ss[i + 1]), k, from, to)
    ensures to == null || to in Leaves(StoreTips(ss[i + 1]))
  {
    assert Leads(n, ss, ops, i);
    StepBetween(n, ss[i], ops[i], k, from, to);
  }

  lemma {:induction false} RunBetween(n: nat, ss: seq<State>, ops: seq<Op>, m: nat, k: Key, from: Leaf, to: Leaf?)
    requires Run(n, ss, ops) && m <= |ops| && ss[0].root.Some? && Between(StoreTips(ss[0]), k, from, to)
    requires to == null || to in Leaves(StoreTips(ss[0]))
    ensures ss[m].root.Some? && Between(StoreTips(ss[m]), k, from, to)
    ensures to == null || to in Leaves(StoreTips(ss[m]))
  {
    if m > 0 {
      RunBetween(n, ss, ops, m - 1, k, from, to);
      NextBetween(n, ss, ops, m - 1, k, from, to);
    }
  }

  /** The leaf that find_leaf reaches is the one that holds a stored key. */
  lemma HolderFound(n: nat, s: State, q: nat, k: Key)
    requires WellFormed(s, n) && s.root.Some? && q < |StoreTips(s)| && k in KeySet(StoreTips(s)[q].page.keys)
    ensures q == LeafPos(s.root.value, n, s.depth, k)
  {
    FindSplits(s.root.value, n, s.depth, MIN_KEY, INVALID, k);
  }

  /** A key once found in a leaf stays reachable to the right of it: after any
      run, find_leaf ends at that leaf or further right, but before the leaf
      that was its right neighbour at the start. */
  lemma RightwardReachable(n: nat, ss: seq<State>, ops: seq<Op>, i: nat, k: Key)
    requires Run(n, ss, ops) && ss[0].root.Some?
    requires i < |StoreTips(ss[0])| && k in KeySet(StoreTips(ss[0])[i].page.keys)
    ensures var t, s := StoreTips(ss[0]), ss[|ops|];
      && WellFormed(s, n) && s.root.Some?
      && PosOf(StoreTips(s), t[i].leaf) <= LeafPos(s.root.value, n, s.depth, k)
      && LeafPos(s.root.value, n, s.depth, k) < PosOf(StoreTips(s), RightOf(t, i, null))
  {
    var t, s := StoreTips(ss[0]), ss[|ops|];
    var to := RightOf(t, i, null);
    BetweenNeighbours(t, i, k);
    RunBetween(n, ss, ops, |ops|, k, t[i].leaf, to);
    RunPairs(n, ss, ops, |ops|);
    var q :| PosOf(StoreTips(s), t[i].leaf) <= q < PosOf(StoreTips(s), to) && k in KeySet(StoreTips(s)[q].page.keys);
    HolderFound(n, s, q, k);
  }

  lemma BetweenNeighbours(tips: seq<Tip>, i: nat, k: Key)
    requires Separate(tips) && i < |tips| && k in KeySet(tips[i].page.keys)
    ensures Between(tips, k, tips[i].leaf, RightOf(tips, i, null))
    ensures RightOf(tips, i, null) == null || RightOf(tips, i, null) in Leaves(tips)
  {
    PosIs(tips, i);
    if i + 1 < |tips| {
      PosIs(tips, i + 1);
    }
  }

  // ---------- stale tags ----------

  /** The operation splits leaf. */
  ghost predicate Hits(n: nat, s: State, op: Op, leaf: Leaf) {
    && s.root.Some? && Shaped(s.root.value, n, s.depth)
    && SplitsLeaf(FindTip(s.root.value, n, s.depth, op.k), leaf)
  }

  ghost predicate SplitsLeaf(tip: Tip, leaf: Leaf) {
    tip.leaf == leaf && tip.page.Full()
  }

  /** How often the first m operations split leaf. */
  ghost function Splits(n: nat, ss: seq<State>, ops: seq<Op>, m: nat, leaf: Leaf): nat
    requires m <= |ops| < |ss|
  {
    if m == 0 then 0
    else Splits(n, ss, ops, m - 1, leaf) + if Hits(n, ss[m - 1], ops[m - 1], leaf) then 1 else 0
  }

  /** Every key of p is in the same slot of q, with the same value. */
  ghost predicate Still(p: Page, q: Page) {
    && |q.keys| == |p.keys| == |q.vals| == |p.vals|
    && forall j :: 0 <= j < |p.keys| && p.keys[j] != INVALID ==> q.keys[j] == p.keys[j] && q.vals[j] == p.vals[j]
  }

  lemma StillOn(p: Page, q: Page, r: Page)
    requires Still(p, q) && Still(q, r)
    ensures Still(p, r)
  {}

  lemma PutStill(p: Page, n: nat, k: Key, v: Value)
    requires p.Valid(n) && !p.Full()
    ensures Still(p, Put(p, k, v))
  {
    PutSlots(p, n, k, v);
  }

  lemma StillHere(tip: Tip, n: nat, op: Op)
    requires n >= 2 && tip.page.Valid(n) && op.cand.page.Blank(n)
    ensures var r := LeafStep(tip, op.k, op.v, op.cand);
      PageStep(tip.page.Full(), tip.page, r[0].page) && |r[0].page.keys| == |r[0].page.vals|
  {
    StepLinks(tip, n, op.k, op.v, op.cand);
    if !tip.page.Full() {
      PutStill(tip.page, n, op.k, op.v);
    }
  }

  /** What one operation does to the page p of a leaf. */
  ghost predicate PageStep(split: bool, p: Page, q: Page) {
    && q.incar == (if split then (p.incar + 1) % INCAR_LIMIT else p.incar)
    && (!split ==> Still(p, q))
  }

  /** The leaf is in the tree with page p. */
  ghost predicate Holds(s: State, leaf: Leaf, p: Page) {
    Tip(leaf, p) in StoreTips(s)
  }

  lemma StepPage(n: nat, s: State, op: Op, leaf: Leaf, p: Page) returns (q: Page)
    requires Ready(n, s, op) && s.root.Some? && Holds(s, leaf, p)
    requires |p.keys| == |p.vals|
    ensures Holds(After(n, s, op), leaf, q) && PageStep(Hits(n, s, op, leaf), p, q)
    ensures After(n, s, op).root.Some? && |q.keys| == |q.vals|
  {
    StepEdits(n, s, op);
    var tip := FindTip(s.root.value, n, s.depth, op.k);
    StillHere(tip, n, op);
    q := EditStep(StoreTips(s), Position(n, s, op), Step(n, s, op), tip, leaf, p);
  }

  lemma EditStep(tips: seq<Tip>, pos: nat, s: seq<Tip>, tip: Tip, leaf: Leaf, p: Page) returns (q: Page)
    requires Edit(tips, pos, s) && tips[pos] == tip
    requires Tip(leaf, p) in tips && |p.keys| == |p.vals|
    requires PageStep(tip.page.Full(), tip.page, s[0].page) && |s[0].page.keys| == |s[0].page.vals|
    ensures Tip(leaf, q) in Splice(tips, pos, s)
    ensures PageStep(SplitsLeaf(tip, leaf), p, q) && |q.keys| == |q.vals|
  {
    var i :| 0 <= i < |tips| && tips[i] == Tip(leaf, p);
    EditPos(tips, pos, s, i);
    PosIs(tips, pos);
    PosIs(tips, i);
    q := if i == pos then s[0].page else p;
    assert Splice(tips, pos, s)[Moved(i, pos, s)] == Tip(leaf, q);
  }

  lemma OnePage(tips: seq<Tip>, leaf: Leaf, p: Page, q: Page)
    requires Separate(tips) && Tip(leaf, p) in tips && Tip(leaf, q) in tips
    ensures p == q
  {
    var i :| 0 <= i < |tips| && tips[i] == Tip(leaf, p);
    var j :| 0 <= j < |tips| && tips[j] == Tip(leaf, q);
    PosIs(tips, i);
    PosIs(tips, j);
  }

  /** Page p became q with c splits. */
  ghost predicate Counted(p: Page, q: Page, c: nat) {
    q.incar == Bumped(p.incar, c) && (c == 0 ==> Still(p, q))
  }

  /** The incarnation after c splits. */
  function Bumped(incar: nat, c: nat): nat {
    if c == 0 then incar else (Bumped(incar, c - 1) + 1) % INCAR_LIMIT
  }

  lemma {:induction false} BumpedIs(incar: nat, c: nat)
    requires incar < INCAR_LIMIT
    ensures Bumped(incar, c) == (incar + c) % INCAR_LIMIT
  {
    if c > 0 {
      BumpedIs(incar, c - 1);
    }
  }

  lemma CountNone(p: Page)
    requires |p.keys| == |p.vals|
    ensures Counted(p, p, 0)
  {}

  lemma CountStep(p: Page, o: Page, q: Page, c: nat, split: bool)
    requires Counted(p, o, c) && PageStep(split, o, q)
    ensures Counted(p, q, c + if split then 1 else 0)
  {
    if !split && c == 0 {
      StillOn(p, o, q);
    }
  }

  lemma CountTag(p: Page, q: Page, c: nat)
    requires p.incar < INCAR_LIMIT && Counted(p, q, c)
    ensures q.incar == (p.incar + c) % INCAR_LIMIT
    ensures c < 256 ==> (TagOf(q) == TagOf(p) <==> c == 0)
    ensures c < 256 && TagOf(q) == TagOf(p) ==> Still(p, q)
  {
    BumpedIs(p.incar, c);
  }

  lemma NextPage(n: nat, ss: seq<State>, ops: seq<Op>, i: nat, leaf: Leaf, p: Page, o: Page) returns (q: Page)
    requires Run(n, ss, ops) && i < |ops| && ss[i].root.Some? && Holds(ss[i], leaf, o) && |o.keys| == |o.vals|
    requires Counted(p, o, Splits(n, ss, ops, i, leaf))
    ensures ss[i + 1].root.Some? && Holds(ss[i + 1], leaf, q) && |q.keys| == |q.vals|
    ensures Counted(p, q, Splits(n, ss, ops, i + 1, leaf))
  {
    assert Leads(n, ss, ops, i);
    q := StepPage(n, ss[i], ops[i], leaf, o);
    CountStep(p, o, q, Splits(n, ss, ops, i, leaf), Hits(n, ss[i], ops[i], leaf));
  }

  /** Over a run, a leaf's incarnation counts its splits, and while it has not
      split, every key is still in its slot with its value. */
  lemma {:induction false} RunPage(n: nat, ss: seq<State>, ops: seq<Op>, m: nat, leaf: Leaf, p: Page) returns (q: Page)
    requires Run(n, ss, ops) && m <= |ops| && ss[0].root.Some? && Holds(ss[0], leaf, p)
    requires |p.keys| == |p.vals|
    ensures ss[m].root.Some? && Holds(ss[m], leaf, q) && |q.keys| == |q.vals|
    ensures Counted(p, q, Splits(n, ss, ops, m, leaf))
  {
    if m == 0 {
      q := p;
      CountNone(p);
    } else {
      var o := RunPage(n, ss, ops, m - 1, leaf, p);
      q := NextPage(n, ss, ops, m - 1, leaf, p, o);
    }
  }

  /** The tag a translation table keeps of a leaf. */
  function TagOf(p: Page): nat {
    p.incar % 256
  }

  lemma RunPageIs(n: nat, ss: seq<State>, ops: seq<Op>, leaf: Leaf, p: Page, q: Page)
    requires Run(n, ss, ops) && ss[0].root.Some? && Holds(ss[0], leaf, p) && Holds(ss[|ops|], leaf, q)
    requires |p.keys| == |p.vals|
    ensures Counted(p, q, Splits(n, ss, ops, |ops|, leaf))
  {
    var r := RunPage(n, ss, ops, |ops|, leaf, p);
    RunPairs(n, ss, ops, |ops|);
    OnePage(StoreTips(ss[|ops|]), leaf, q, r);
  }

  /** A leaf's incarnation equals its number of splits modulo 2^16, on top of
      the one it had.  While fewer than 256 splits have hit the leaf, its tag is
      unchanged exactly when no split has; every cached key is then still in the
      same slot with the same value. */
  lemma FreshTag(n: nat, ss: seq<State>, ops: seq<Op>, leaf: Leaf, p: Page, q: Page)
    requires Run(n, ss, ops) && ss[0].root.Some? && Holds(ss[0], leaf, p) && Holds(ss[|ops|], leaf, q)
    requires p.incar < 0x1_0000 && |p.keys| == |p.vals|
    ensures var c := Splits(n, ss, ops, |ops|, leaf);
      && q.incar == (p.incar + c) % 0x1_0000
      && (c < 256 ==> (TagOf(q) == TagOf(p) <==> c == 0))
      && (c < 256 && TagOf(q) == TagOf(p) ==> Still(p, q))
  {
    RunPageIs(n, ss, ops, leaf, p, q);
    CountTag(p, q, Splits(n, ss, ops, |ops|, leaf));
  }
}
