/** A tree with one inner node, as its separators and its leaves: what an insert
    does to it as long as the node has room. */
module FlatTree {
  import opened Keys
  import opened XNode
  import opened BTree
  import opened TreeOrder
  import opened LeafChain
  import opened Occupancy

  function Bottoms(tips: seq<Tip>): (r: seq<Tree>)
    ensures |r| == |tips| && forall i :: 0 <= i < |tips| ==> r[i] == Bottom(tips[i])
  {
    seq(|tips|, i requires 0 <= i < |tips| => Bottom(tips[i]))
  }

  function NodeOf(seps: seq<Key>, tips: seq<Tip>): Tree {
    Fork(seps, Bottoms(tips))
  }

  lemma {:induction false} BottomTips(tips: seq<Tip>)
    ensures TipsAll(Bottoms(tips)) == tips
  {
    if tips != [] {
      BottomTips(tips[1..]);
      var kids := Bottoms(tips);
      assert kids[1..] == Bottoms(tips[1..]);
      assert TipsAll(kids) == Tips(kids[0]) + TipsAll(kids[1..]);
    }
  }

  /** The pairs that always find room: if the node is full, some leaf is not. */
  function RoomIn(n: nat): nat {
    n * (n / 2) + n
  }

  /** What holds of it between inserts. */
  ghost predicate Sound(n: nat, seps: seq<Key>, tips: seq<Tip>) {
    && n >= 2 && |tips| == |seps| + 1 && PagesOk(tips, n)
    && Shaped(NodeOf(seps, tips), n, 1) && Ordered(NodeOf(seps, tips), MIN_KEY, INVALID)
    && (|tips| >= 2 ==> Filled(tips, n))
  }

  lemma SoundRises(n: nat, seps: seq<Key>, tips: seq<Tip>)
    requires Sound(n, seps, tips)
    ensures Ascending(tips)
  {
    BottomTips(tips);
    OrderedAscending(NodeOf(seps, tips), MIN_KEY, INVALID);
  }

  ghost function TableOf(n: nat, tips: seq<Tip>): map<Key, Value> {
    if PagesOk(tips, n) then Contents(tips, n) else map[]
  }

  /** The leaf that the separators lead to is the only one that may hold k. */
  lemma ChildSplits(n: nat, seps: seq<Key>, tips: seq<Tip>, k: Key)
    requires Sound(n, seps, tips) && k != INVALID
    ensures PagesOk(tips, n) && SplitsAt(tips, ChildIdx(seps, k), k)
    ensures FindTip(NodeOf(seps, tips), n, 1, k) == tips[ChildIdx(seps, k)]
  {
    var t, i := NodeOf(seps, tips), ChildIdx(seps, k);
    BottomTips(tips);
    BottomTips(tips[..i]);
    assert t.kids[..i] == Bottoms(tips[..i]);
    FindSplits(t, n, 1, MIN_KEY, INVALID, k);
  }

  /** So the leaf's page gives what is stored for k. */
  lemma FlatLookup(n: nat, seps: seq<Key>, tips: seq<Tip>, k: Key)
    requires Sound(n, seps, tips) && k != INVALID
    ensures tips[ChildIdx(seps, k)].page.Valid(n)
    ensures var t := TableOf(n, tips);
      PageGet(tips[ChildIdx(seps, k)].page, k) == if k in t then Some(t[k]) else None
  {
    var i := ChildIdx(seps, k);
    ChildSplits(n, seps, tips, k);
    SplitContents(tips, n, i, k);
    PageGetEntries(tips[i].page, n, k);
  }

  // ---------- room ----------

  /** A half-full leaf in front of leaves that hold so much. */
  lemma OneMore(head: nat, rest: nat, leaves: nat, m: nat, n: nat)
    requires head >= m && leaves > 0 && rest >= (leaves - 1) * m + n
    ensures head + rest >= leaves * m + n
  {
    MulStep(leaves, m);
  }

  lemma HeadCount(tips: seq<Tip>, n: nat, leaves: nat)
    requires PagesOk(tips, n) && Ascending(tips) && Filled(tips, n) && |tips| == leaves + 1 && leaves > 0
    requires PagesOk(tips[1..], n) && |Contents(tips[1..], n)| >= (leaves - 1) * (n / 2) + n
    ensures |Contents(tips, n)| >= leaves * (n / 2) + n
  {
    TailOk(tips, n);
    CountHead(tips, n);
    OneMore(|tips[0].page.Entries()|, |Contents(tips[1..], n)|, leaves, n / 2, n);
  }

  lemma FullHead(tips: seq<Tip>, n: nat, leaves: nat)
    requires PagesOk(tips, n) && Ascending(tips) && Filled(tips, n) && |tips| == leaves + 1 && tips[0].page.Full()
    ensures |Contents(tips, n)| >= leaves * (n / 2) + n
  {
    TailOk(tips, n);
    CountHead(tips, n);
    EntryCount(tips[0].page, n);
    FilledCount(tips[1..], n);
  }

  /** Half-full leaves, one of them full. */
  lemma {:induction false} FullCount(tips: seq<Tip>, n: nat, pos: nat, leaves: nat)
    requires PagesOk(tips, n) && Ascending(tips) && Filled(tips, n) && pos < |tips| && tips[pos].page.Full()
    requires |tips| == leaves + 1
    ensures |Contents(tips, n)| >= leaves * (n / 2) + n
    decreases leaves
  {
    var rest := tips[1..];
    TailOk(tips, n);
    if pos == 0 {
      FullHead(tips, n, leaves);
    } else {
      assert rest[pos - 1] == tips[pos];
      FullCount(rest, n, pos - 1, leaves - 1);
      HeadCount(tips, n, leaves);
    }
  }

  lemma FullNode(tips: seq<Tip>, n: nat, pos: nat)
    requires PagesOk(tips, n) && Ascending(tips) && Filled(tips, n) && pos < |tips| && tips[pos].page.Full()
    requires |tips| - 1 == n
    ensures |Contents(tips, n)| >= RoomIn(n)
  {
    FullCount(tips, n, pos, n);
  }

  /** With room left, a full leaf means that the node is not. */
  lemma NodeHasRoom(n: nat, seps: seq<Key>, tips: seq<Tip>, pos: nat)
    requires Sound(n, seps, tips) && |TableOf(n, tips)| < RoomIn(n) && pos < |tips| && tips[pos].page.Full()
    ensures |seps| < n
  {
    if |seps| == n {
      SoundRises(n, seps, tips);
      FullNode(tips, n, pos);
    }
  }

  // ---------- an insert ----------

  /** The leaf takes the key. */
  lemma KeyKept(n: nat, seps: seq<Key>, tips: seq<Tip>, k: Key, v: Value, cand: Tip)
    requires Sound(n, seps, tips) && k !in TableOf(n, tips) && k != INVALID && cand.page.Blank(n)
    requires !tips[ChildIdx(seps, k)].page.Full()
    ensures var i := ChildIdx(seps, k);
      var after := tips[i := Tip(tips[i].leaf, Put(tips[i].page, k, v))];
      Sound(n, seps, after) && TableOf(n, after) == TableOf(n, tips)[k := v]
  {
    var i := ChildIdx(seps, k);
    var s := Tip(tips[i].leaf, Put(tips[i].page, k, v));
    StepFacts(n, seps, tips, k, v, cand);
    KeepNode(n, seps, tips, i, k, v, cand, s);
    KeepTips(tips, i, k, v, cand, s);
  }

  lemma KeepNode(n: nat, seps: seq<Key>, tips: seq<Tip>, i: nat, k: Key, v: Value, cand: Tip, s: Tip)
    requires Sound(n, seps, tips) && cand.page.Blank(n) && i == ChildIdx(seps, k)
    requires LeafStep(tips[i], k, v, cand) == [s]
    ensures InsertT(n, 1, NodeOf(seps, tips), k, v, cand) == Insertion(NodeOf(seps, tips[i := s]), NoSib)
  {
    var t := NodeOf(seps, tips);
    assert InsertT(n, 0, Bottom(tips[i]), k, v, cand) == Insertion(Bottom(s), NoSib);
    assert t.kids[i := Bottom(s)] == Bottoms(tips[i := s]);
  }

  lemma KeepTips(tips: seq<Tip>, i: nat, k: Key, v: Value, cand: Tip, s: Tip)
    requires i < |tips| && |tips[i].page.keys| == |tips[i].page.vals| > 0 && |cand.page.keys| == |cand.page.vals|
    requires LeafStep(tips[i], k, v, cand) == [s]
    ensures InsertTips(tips, i, k, v, cand) == tips[i := s]
  {}

  /** The leaf splits; the node takes the separator and the new leaf. */
  lemma LeafSplits(n: nat, seps: seq<Key>, tips: seq<Tip>, k: Key, v: Value, cand: Tip)
    requires Sound(n, seps, tips) && k !in TableOf(n, tips) && k != INVALID && cand.page.Blank(n)
    requires tips[ChildIdx(seps, k)].page.Full() && |seps| < n
    ensures var i := ChildIdx(seps, k);
      var s := LeafStep(tips[i], k, v, cand);
      && |s| == 2 && |s[1].page.keys| == n
      && var seps', tips' := Inserted(seps, i, s[1].page.keys[0]), Inserted(tips[i := s[0]], i + 1, s[1]);
         Sound(n, seps', tips') && TableOf(n, tips') == TableOf(n, tips)[k := v]
  {
    var l, r := SplitFacts(n, seps, tips, k, v, cand);
    SplitSound(n, seps, tips, ChildIdx(seps, k), k, v, cand, l, r);
  }

  /** What an insert keeps when the leaf splits. */
  lemma SplitFacts(n: nat, seps: seq<Key>, tips: seq<Tip>, k: Key, v: Value, cand: Tip) returns (l: Tip, r: Tip)
    requires Sound(n, seps, tips) && k !in TableOf(n, tips) && k != INVALID && cand.page.Blank(n)
    requires tips[ChildIdx(seps, k)].page.Full()
    ensures var t, i := NodeOf(seps, tips), ChildIdx(seps, k);
      && LeafStep(tips[i], k, v, cand) == [l, r] && |r.page.keys| == n
      && Good(InsertT(n, 1, t, k, v, cand), n, 1, MIN_KEY, INVALID)
      && PagesOk(InsertTips(tips, i, k, v, cand), n) && Filled(InsertTips(tips, i, k, v, cand), n)
      && TableOf(n, InsertTips(tips, i, k, v, cand)) == TableOf(n, tips)[k := v]
  {
    StepFacts(n, seps, tips, k, v, cand);
    var s := LeafStep(tips[ChildIdx(seps, k)], k, v, cand);
    l, r := s[0], s[1];
  }

  lemma SplitSound(n: nat, seps: seq<Key>, tips: seq<Tip>, i: nat, k: Key, v: Value, cand: Tip, l: Tip, r: Tip)
    requires Sound(n, seps, tips) && cand.page.Blank(n) && i == ChildIdx(seps, k) && |seps| < n
    requires LeafStep(tips[i], k, v, cand) == [l, r] && |r.page.keys| == n
    requires Good(InsertT(n, 1, NodeOf(seps, tips), k, v, cand), n, 1, MIN_KEY, INVALID)
    requires PagesOk(InsertTips(tips, i, k, v, cand), n) && Filled(InsertTips(tips, i, k, v, cand), n)
    ensures Sound(n, Inserted(seps, i, r.page.keys[0]), Inserted(tips[i := l], i + 1, r))
    ensures InsertTips(tips, i, k, v, cand) == Inserted(tips[i := l], i + 1, r)
  {
    SplitNode(n, seps, tips, i, k, v, cand, l, r);
    SplitTips(tips, i, k, v, cand, l, r);
  }

  lemma SplitNode(n: nat, seps: seq<Key>, tips: seq<Tip>, i: nat, k: Key, v: Value, cand: Tip, l: Tip, r: Tip)
    requires Sound(n, seps, tips) && cand.page.Blank(n) && i == ChildIdx(seps, k) && |seps| < n
    requires LeafStep(tips[i], k, v, cand) == [l, r] && |r.page.keys| == n
    ensures InsertT(n, 1, NodeOf(seps, tips), k, v, cand)
         == Insertion(NodeOf(Inserted(seps, i, r.page.keys[0]), Inserted(tips[i := l], i + 1, r)), NoSib)
  {
    var t, up := NodeOf(seps, tips), r.page.keys[0];
    assert InsertT(n, 0, Bottom(tips[i]), k, v, cand) == Insertion(Bottom(l), Sib(up, Bottom(r)));
    BottomsInserted(tips, i, l, r);
    assert InsertT(n, 1, t, k, v, cand)
        == Grow(n, seps, t.kids, i, Insertion(Bottom(l), Sib(up, Bottom(r))));
  }

  lemma BottomsInserted(tips: seq<Tip>, i: nat, l: Tip, r: Tip)
    requires i < |tips|
    ensures Bottoms(tips)[i := Bottom(l)] == Bottoms(tips[i := l])
    ensures Inserted(Bottoms(tips)[i := Bottom(l)], i + 1, Bottom(r)) == Bottoms(Inserted(tips[i := l], i + 1, r))
  {}

  lemma SplitTips(tips: seq<Tip>, i: nat, k: Key, v: Value, cand: Tip, l: Tip, r: Tip)
    requires i < |tips| && |tips[i].page.keys| == |tips[i].page.vals| > 0 && |cand.page.keys| == |cand.page.vals|
    requires LeafStep(tips[i], k, v, cand) == [l, r]
    ensures InsertTips(tips, i, k, v, cand) == Inserted(tips[i := l], i + 1, r)
  {}

  /** What an insert keeps, for either case. */
  lemma StepFacts(n: nat, seps: seq<Key>, tips: seq<Tip>, k: Key, v: Value, cand: Tip)
    requires Sound(n, seps, tips) && k !in TableOf(n, tips) && k != INVALID && cand.page.Blank(n)
    ensures var t, i := NodeOf(seps, tips), ChildIdx(seps, k);
      && tips[i].page.Valid(n) && k !in tips[i].page.keys
      && Good(InsertT(n, 1, t, k, v, cand), n, 1, MIN_KEY, INVALID)
      && PagesOk(InsertTips(tips, i, k, v, cand), n)
      && Contents(InsertTips(tips, i, k, v, cand), n) == TableOf(n, tips)[k := v]
      && (|tips| >= 2 || tips[i].page.Full() ==> Filled(InsertTips(tips, i, k, v, cand), n))
      && Stepped(LeafStep(tips[i], k, v, cand), tips[i], n, k, v, cand)
  {
    var i := ChildIdx(seps, k);
    ChildSplits(n, seps, tips, k);
    SplitContents(tips, n, i, k);
    LeafStepOk(tips[i], n, k, v, cand);
    InsertGood(n, 1, NodeOf(seps, tips), MIN_KEY, INVALID, k, v, cand);
    InsertContents(tips, n, i, k, v, cand);
    if |tips| >= 2 || tips[i].page.Full() {
      InsertFilled(tips, n, i, k, v, cand);
    }
  }

  // ---------- trees that look alike ----------

  /** The same keys and values, leaf by leaf. */
  ghost predicate Alike(a: seq<Tip>, b: seq<Tip>) {
    && |a| == |b|
    && forall i {:trigger a[i]} {:trigger b[i]} :: 0 <= i < |a| ==>
         a[i].page.keys == b[i].page.keys && a[i].page.vals == b[i].page.vals
  }

  lemma AlikePages(a: seq<Tip>, b: seq<Tip>, n: nat)
    requires Alike(a, b) && PagesOk(a, n)
    ensures PagesOk(b, n) && Contents(a, n) == Contents(b, n)
    ensures Filled(a, n) ==> Filled(b, n)
  {
    assert EntriesOf(a, n) == EntriesOf(b, n);
    forall i | 0 <= i < |b| && Filled(a, n) ensures FilledPage(b[i].page, n) {
      assert FilledPage(a[i].page, n) && EntriesOf(a, n)[i] == EntriesOf(b, n)[i];
    }
  }

  lemma AlikeSound(n: nat, seps: seq<Key>, a: seq<Tip>, b: seq<Tip>)
    requires Sound(n, seps, a) && Alike(a, b)
    ensures Sound(n, seps, b) && TableOf(n, b) == TableOf(n, a)
  {
    AlikePages(a, b, n);
    var s, t := NodeOf(seps, a), NodeOf(seps, b);
    forall i | 0 <= i < |b|
      ensures Shaped(t.kids[i], n, 0)
      ensures Ordered(t.kids[i], Fence(MIN_KEY, seps, INVALID, i), Fence(MIN_KEY, seps, INVALID, i + 1))
    {
      assert Ordered(s.kids[i], Fence(MIN_KEY, seps, INVALID, i), Fence(MIN_KEY, seps, INVALID, i + 1));
    }
  }

  /** A blank leaf alone is an empty tree. */
  lemma BlankSound(n: nat, tip: Tip)
    requires n >= 2 && tip.page.Blank(n)
    ensures Sound(n, [], [tip]) && TableOf(n, [tip]) == map[]
  {
    BlankEntries(tip.page, n);
    ContentsOne(tip, n);
    assert KeySet(tip.page.keys) == {};
  }
}
