/** The leaves of a tree as an ordered, linked sequence: order, contents and
    next pointers, and what an insert does to each. */
module LeafChain {
  import opened Keys
  import opened XNode
  import opened BTree
  import opened TreeOrder

  // ---------- order ----------

  ghost predicate AllInRange(tips: seq<Tip>, lo: Key, hi: Key) {
    forall i :: 0 <= i < |tips| ==> InRange(tips[i].page, lo, hi)
  }

  /** Every key of p is below every key of q. */
  ghost predicate Before(p: Page, q: Page) {
    forall a, b :: a in KeySet(p.keys) && b in KeySet(q.keys) ==> a < b
  }

  ghost predicate Ascending(tips: seq<Tip>) {
    forall i, j {:trigger Before(tips[i].page, tips[j].page)} :: 0 <= i < j < |tips| ==>
        Before(tips[i].page, tips[j].page)
  }

  lemma RangesBefore(p: Page, q: Page, lo: Key, mid: Key, hi: Key)
    requires InRange(p, lo, mid) && InRange(q, mid, hi)
    ensures Before(p, q)
  {}

  lemma AscendingConcat(a: seq<Tip>, b: seq<Tip>, lo: Key, mid: Key, hi: Key)
    requires Ascending(a) && Ascending(b) && AllInRange(a, lo, mid) && AllInRange(b, mid, hi)
    requires lo <= mid <= hi
    ensures Ascending(a + b) && AllInRange(a + b, lo, hi)
  {
    var c := a + b;
    assert forall i :: 0 <= i < |c| ==> c[i] == if i < |a| then a[i] else b[i - |a|];
    forall i, j | 0 <= i < j < |c| ensures Before(c[i].page, c[j].page) {
      if i < |a| <= j {
        RangesBefore(c[i].page, c[j].page, lo, mid, hi);
      }
    }
    forall i | 0 <= i < |c| ensures InRange(c[i].page, lo, hi) {
      if i < |a| {
        assert InRange(a[i].page, lo, mid);
      } else {
        assert InRange(b[i - |a|].page, mid, hi);
      }
    }
  }

  lemma {:induction false} KidsAscending(seps: seq<Key>, kids: seq<Tree>, lo: Key, hi: Key, a: nat, b: nat)
    requires Ordered(Fork(seps, kids), lo, hi) && a <= b <= |kids|
    ensures Ascending(TipsAll(kids[a..b]))
    ensures AllInRange(TipsAll(kids[a..b]), Fence(lo, seps, hi, a), Fence(lo, seps, hi, b))
    decreases kids, b - a
  {
    if a < b {
      OrderedAscending(kids[a], Fence(lo, seps, hi, a), Fence(lo, seps, hi, a + 1));
      KidsAscending(seps, kids, lo, hi, a + 1, b);
      RisingAt(lo, seps, hi, a, a + 1);
      RisingAt(lo, seps, hi, a + 1, b);
      assert kids[a..b][1..] == kids[a + 1..b];
      AscendingConcat(Tips(kids[a]), TipsAll(kids[a + 1..b]),
                      Fence(lo, seps, hi, a), Fence(lo, seps, hi, a + 1), Fence(lo, seps, hi, b));
    }
  }

  /** Left to right, the leaves of an ordered tree hold ascending keys. */
  lemma {:induction false} OrderedAscending(t: Tree, lo: Key, hi: Key)
    requires Ordered(t, lo, hi)
    ensures Ascending(Tips(t)) && AllInRange(Tips(t), lo, hi)
    decreases t
  {
    match t
    case Bottom(tip) =>
    case Fork(seps, kids) =>
      KidsAscending(seps, kids, lo, hi, 0, |kids|);
      assert kids[0..|kids|] == kids;
  }

  /** Leaves left of pos hold keys below k, leaves right of pos keys above. */
  ghost predicate SplitsAt(tips: seq<Tip>, pos: nat, k: Key) {
    && pos < |tips|
    && (forall j :: 0 <= j < pos ==> forall x :: x in KeySet(tips[j].page.keys) ==> x < k)
    && (forall j :: pos < j < |tips| ==> forall x :: x in KeySet(tips[j].page.keys) ==> x > k)
  }

  lemma SplitsInside(a: seq<Tip>, b: seq<Tip>, c: seq<Tip>, pos: nat, k: Key, lo: Key, l: Key, h: Key, hi: Key)
    requires SplitsAt(b, pos, k) && l <= k < h
    requires AllInRange(a, lo, l) && AllInRange(c, h, hi)
    ensures SplitsAt(a + b + c, |a| + pos, k)
  {
    var t := a + b + c;
    forall j, x | 0 <= j < |a| + pos && x in KeySet(t[j].page.keys) ensures x < k {
      if j < |a| {
        assert InRange(a[j].page, lo, l) && t[j] == a[j];
      } else {
        assert t[j] == b[j - |a|];
      }
    }
    forall j, x | |a| + pos < j < |t| && x in KeySet(t[j].page.keys) ensures x > k {
      if j < |a| + |b| {
        assert t[j] == b[j - |a|];
      } else {
        assert t[j] == c[j - |a| - |b|] && InRange(c[j - |a| - |b|].page, h, hi);
      }
    }
  }

  /** The leaf that find_leaf reaches is the only one that may hold k. */
  lemma {:induction false} FindSplits(t: Tree, n: nat, d: nat, lo: Key, hi: Key, k: Key)
    requires Shaped(t, n, d) && Ordered(t, lo, hi) && lo <= k < hi
    ensures SplitsAt(Tips(t), LeafPos(t, n, d, k), k)
    ensures Tips(t)[LeafPos(t, n, d, k)] == FindTip(t, n, d, k)
    decreases t
  {
    FindTipPos(t, n, d, k);
    match t
    case Bottom(tip) =>
    case Fork(seps, kids) =>
      var i := ChildIdx(seps, k);
      ChildEncloses(seps, lo, hi, k);
      FindSplits(kids[i], n, d - 1, Fence(lo, seps, hi, i), Fence(lo, seps, hi, i + 1), k);
      KidsAscending(seps, kids, lo, hi, 0, i);
      KidsAscending(seps, kids, lo, hi, i + 1, |kids|);
      TipsAllAround(kids, i);
      assert kids[0..i] == kids[..i] && kids[i + 1..|kids|] == kids[i + 1..];
      SplitsInside(TipsAll(kids[..i]), Tips(kids[i]), TipsAll(kids[i + 1..]), LeafPos(kids[i], n, d - 1, k), k,
                   lo, Fence(lo, seps, hi, i), Fence(lo, seps, hi, i + 1), hi);
  }

  // ---------- contents ----------

  ghost predicate PagesOk(tips: seq<Tip>, n: nat) {
    forall i :: 0 <= i < |tips| ==> tips[i].page.Valid(n)
  }

  ghost predicate KidsShaped(kids: seq<Tree>, n: nat, d: nat) {
    forall i :: 0 <= i < |kids| ==> Shaped(kids[i], n, d)
  }

  lemma {:induction false} KidsPages(kids: seq<Tree>, n: nat, d: nat)
    requires KidsShaped(kids, n, d)
    ensures PagesOk(TipsAll(kids), n)
    decreases kids, 0
  {
    if |kids| > 0 {
      ShapedPages(kids[0], n, d);
      KidsPages(kids[1..], n, d);
    }
  }

  lemma {:induction false} ShapedPages(t: Tree, n: nat, d: nat)
    requires Shaped(t, n, d)
    ensures PagesOk(Tips(t), n) && |Tips(t)| > 0
    decreases t, 1
  {
    match t
    case Bottom(tip) =>
    case Fork(seps, kids) =>
      KidsPages(kids, n, d - 1);
      ShapedPages(kids[0], n, d - 1);
  }

  ghost function Union(ms: seq<map<Key, Value>>): map<Key, Value> {
    if |ms| == 0 then map[] else ms[0] + Union(ms[1..])
  }

  lemma PlusAssociates(a: map<Key, Value>, b: map<Key, Value>, c: map<Key, Value>)
    ensures a + (b + c) == (a + b) + c
  {}

  lemma {:induction false} UnionConcat(a: seq<map<Key, Value>>, b: seq<map<Key, Value>>)
    ensures Union(a + b) == Union(a) + Union(b)
  {
    if |a| == 0 {
      assert a + b == b;
    } else {
      UnionConcat(a[1..], b);
      assert (a + b)[1..] == a[1..] + b && (a + b)[0] == a[0];
      PlusAssociates(a[0], Union(a[1..]), Union(b));
    }
  }

  lemma {:induction false} UnionMember(ms: seq<map<Key, Value>>, k: Key)
    ensures k in Union(ms) <==> exists i :: 0 <= i < |ms| && k in ms[i]
  {
    if |ms| > 0 {
      UnionMember(ms[1..], k);
      if k in Union(ms[1..]) {
        var i :| 0 <= i < |ms[1..]| && k in ms[1..][i];
        assert k in ms[i + 1];
      }
      if i :| 0 < i < |ms| && k in ms[i] {
        assert k in ms[1..][i - 1];
      }
    }
  }

  ghost function EntriesOf(tips: seq<Tip>, n: nat): (ms: seq<map<Key, Value>>)
    requires PagesOk(tips, n)
    ensures |ms| == |tips|
    ensures forall i :: 0 <= i < |tips| ==> ms[i] == tips[i].page.Entries()
  {
    seq(|tips|, i requires 0 <= i < |tips| => tips[i].page.Entries())
  }

  /** All pairs stored in the leaves. */
  ghost function Contents(tips: seq<Tip>, n: nat): map<Key, Value>
    requires PagesOk(tips, n)
  {
    Union(EntriesOf(tips, n))
  }

  lemma ContentsConcat(a: seq<Tip>, b: seq<Tip>, n: nat)
    requires PagesOk(a, n) && PagesOk(b, n)
    ensures PagesOk(a + b, n) && Contents(a + b, n) == Contents(a, n) + Contents(b, n)
  {
    assert EntriesOf(a + b, n) == EntriesOf(a, n) + EntriesOf(b, n);
    UnionConcat(EntriesOf(a, n), EntriesOf(b, n));
  }

  lemma ContentsOne(tip: Tip, n: nat)
    requires tip.page.Valid(n)
    ensures PagesOk([tip], n) && Contents([tip], n) == tip.page.Entries()
  {
    var ms := EntriesOf([tip], n);
    assert ms[1..] == [] && Union(ms) == ms[0] + Union(ms[1..]);
  }

  /** A key is stored exactly when some leaf has it. */
  lemma ContentsMember(tips: seq<Tip>, n: nat, k: Key)
    requires PagesOk(tips, n)
    ensures k in Contents(tips, n) <==> exists i :: 0 <= i < |tips| && k in tips[i].page.Entries()
  {
    var ms := EntriesOf(tips, n);
    UnionMember(ms, k);
    if i :| 0 <= i < |ms| && k in ms[i] {
      assert k in tips[i].page.Entries();
    }
    if i :| 0 <= i < |tips| && k in tips[i].page.Entries() {
      assert k in ms[i];
    }
  }

  lemma ContentsAround(tips: seq<Tip>, pos: nat, n: nat)
    requires PagesOk(tips, n) && pos < |tips|
    ensures Contents(tips, n)
         == Contents(tips[..pos], n) + tips[pos].page.Entries() + Contents(tips[pos + 1..], n)
  {
    var a, b, c := tips[..pos], [tips[pos]], tips[pos + 1..];
    assert tips == a + b + c;
    ContentsConcat(a, b, n);
    ContentsConcat(a + b, c, n);
    ContentsOne(tips[pos], n);
  }

  /** Where the descent splits the leaves, the leaf there decides about k. */
  lemma SplitContents(tips: seq<Tip>, n: nat, pos: nat, k: Key)
    requires PagesOk(tips, n) && SplitsAt(tips, pos, k)
    ensures k !in Contents(tips[..pos], n) && k !in Contents(tips[pos + 1..], n)
    ensures k in Contents(tips, n) <==> k in tips[pos].page.Entries()
    ensures k in Contents(tips, n) ==> Contents(tips, n)[k] == tips[pos].page.Entries()[k]
  {
    ContentsAround(tips, pos, n);
    ContentsMember(tips[..pos], n, k);
    ContentsMember(tips[pos + 1..], n, k);
    forall i | 0 <= i < |tips| && i != pos ensures k !in tips[i].page.Entries() {}
  }

  /** A descent followed by a search is a lookup in the stored pairs. */
  lemma LookupContents(t: Tree, n: nat, d: nat, lo: Key, hi: Key, k: Key)
    requires Shaped(t, n, d) && Ordered(t, lo, hi) && lo <= k < hi
    ensures PagesOk(Tips(t), n)
    ensures Lookup(t, n, d, k)
         == if k in Contents(Tips(t), n) then Some(Contents(Tips(t), n)[k]) else None
  {
    ShapedPages(t, n, d);
    FindSplits(t, n, d, lo, hi, k);
    SplitContents(Tips(t), n, LeafPos(t, n, d, k), k);
    PageGetEntries(FindTip(t, n, d, k).page, n, k);
  }

  lemma PageGetEntries(p: Page, n: nat, k: Key)
    requires p.Valid(n) && k != INVALID
    ensures PageGet(p, k) == if k in p.Entries() then Some(p.Entries()[k]) else None
  {}

  lemma PartitionUnion(e: map<Key, Value>, l: Page, r: Page, n: nat)
    requires Partition(e, l, r, n)
    ensures l.Entries() + r.Entries() == e
  {}

  lemma ContentsTwo(a: Tip, b: Tip, n: nat)
    requires a.page.Valid(n) && b.page.Valid(n)
    ensures PagesOk([a, b], n) && Contents([a, b], n) == a.page.Entries() + b.page.Entries()
  {
    ContentsOne(a, n);
    ContentsOne(b, n);
    ContentsConcat([a], [b], n);
    assert [a, b] == [a] + [b];
  }

  lemma SteppedContents(s: seq<Tip>, e: map<Key, Value>, n: nat)
    requires |s| == 1 ==> s[0].page.Valid(n) && s[0].page.Entries() == e
    requires |s| == 2 ==> s[0].page.Valid(n) && s[1].page.Valid(n) && s[0].page.Entries() + s[1].page.Entries() == e
    requires 1 <= |s| <= 2
    ensures PagesOk(s, n) && Contents(s, n) == e
  {
    if |s| == 1 {
      ContentsOne(s[0], n);
      assert s == [s[0]];
    } else {
      ContentsTwo(s[0], s[1], n);
      assert s == [s[0], s[1]];
    }
  }

  lemma LeafStepContents(tip: Tip, n: nat, k: Key, v: Value, cand: Tip)
    requires tip.page.Valid(n) && n >= 2 && cand.page.Blank(n)
    requires k !in tip.page.keys && k != INVALID
    ensures PagesOk(LeafStep(tip, k, v, cand), n)
    ensures Contents(LeafStep(tip, k, v, cand), n) == tip.page.Entries()[k := v]
  {
    LeafStepOk(tip, n, k, v, cand);
    var s, e := LeafStep(tip, k, v, cand), tip.page.Entries()[k := v];
    if |s| == 2 {
      PartitionUnion(e, s[0].page, s[1].page, n);
    }
    SteppedContents(s, e, n);
  }

  lemma MiddleUpdate(a: map<Key, Value>, b: map<Key, Value>, c: map<Key, Value>, k: Key, v: Value)
    requires k !in c
    ensures a + b[k := v] + c == (a + b + c)[k := v]
  {}

  /** An insert adds exactly its pair to what the leaves hold. */
  lemma InsertContents(tips: seq<Tip>, n: nat, pos: nat, k: Key, v: Value, cand: Tip)
    requires PagesOk(tips, n) && SplitsAt(tips, pos, k) && n >= 2 && cand.page.Blank(n)
    requires k !in tips[pos].page.keys && k != INVALID
    ensures PagesOk(InsertTips(tips, pos, k, v, cand), n)
    ensures Contents(InsertTips(tips, pos, k, v, cand), n) == Contents(tips, n)[k := v]
  {
    var a, c := tips[..pos], tips[pos + 1..];
    LeafStepContents(tips[pos], n, k, v, cand);
    SplitContents(tips, n, pos, k);
    ContentsSpliced(a, LeafStep(tips[pos], k, v, cand), c, n);
    ContentsAround(tips, pos, n);
    MiddleUpdate(Contents(a, n), tips[pos].page.Entries(), Contents(c, n), k, v);
  }

  lemma ContentsSpliced(a: seq<Tip>, b: seq<Tip>, c: seq<Tip>, n: nat)
    requires PagesOk(a, n) && PagesOk(b, n) && PagesOk(c, n)
    ensures PagesOk(a + b + c, n)
    ensures Contents(a + b + c, n) == Contents(a, n) + Contents(b, n) + Contents(c, n)
  {
    ContentsConcat(a, b, n);
    ContentsConcat(a + b, c, n);
  }

  // ---------- the chain ----------

  /** Each leaf's next pointer is its right neighbour; the last one's is end. */
  ghost predicate Linked(tips: seq<Tip>, end: Leaf?) {
    forall i {:trigger RightOf(tips, i, end)} :: 0 <= i < |tips| ==> tips[i].page.next == RightOf(tips, i, end)
  }

  ghost function RightOf(tips: seq<Tip>, i: nat, end: Leaf?): Leaf?
    requires i < |tips|
  {
    if i + 1 < |tips| then tips[i + 1].leaf else end
  }

  /** No leaf occurs twice. */
  ghost predicate Separate(tips: seq<Tip>) {
    forall i, j {:trigger Differ(tips[i], tips[j])} :: 0 <= i < j < |tips| ==> Differ(tips[i], tips[j])
  }

  predicate Differ(a: Tip, b: Tip) {
    a.leaf != b.leaf
  }

  ghost function Leaves(tips: seq<Tip>): set<Leaf> {
    set i | 0 <= i < |tips| :: tips[i].leaf
  }

  /** The leaves an insert leaves behind, and the links between them. */
  lemma StepLinks(tip: Tip, n: nat, k: Key, v: Value, cand: Tip)
    requires tip.page.Valid(n) && n >= 2 && cand.page.Blank(n)
    ensures var s := LeafStep(tip, k, v, cand);
      && s[0].leaf == tip.leaf
      && (|s| == 1 ==> s[0].page.next == tip.page.next && s[0].page.incar == tip.page.incar)
      && (|s| == 2 ==>
            && s[1].leaf == cand.leaf && s[0].page.next == cand.leaf && s[1].page.next == tip.page.next
            && s[0].page.incar == (tip.page.incar + 1) % INCAR_LIMIT && s[1].page.incar == cand.page.incar)
  {
    if tip.page.Full() {
      SplitMeta(tip.page, n, cand.leaf, cand.page, k, v);
    }
  }

  function Splice(tips: seq<Tip>, pos: nat, s: seq<Tip>): seq<Tip>
    requires pos < |tips|
  {
    tips[..pos] + s + tips[pos + 1..]
  }

  lemma SpliceAt(tips: seq<Tip>, pos: nat, s: seq<Tip>, i: nat)
    requires pos < |tips| && 1 <= |s| <= 2 && i < |tips| + |s| - 1
    ensures |Splice(tips, pos, s)| == |tips| + |s| - 1
    ensures Splice(tips, pos, s)[i]
         == if i < pos then tips[i] else if i < pos + |s| then s[i - pos] else tips[i - |s| + 1]
  {}

  /** A leaf, or a leaf and its new right neighbour, in place of tips[pos]. */
  lemma SpliceLinked(tips: seq<Tip>, pos: nat, s: seq<Tip>, end: Leaf?)
    requires Linked(tips, end) && pos < |tips| && 1 <= |s| <= 2
    requires s[0].leaf == tips[pos].leaf
    requires |s| == 1 ==> s[0].page.next == tips[pos].page.next
    requires |s| == 2 ==> s[0].page.next == s[1].leaf && s[1].page.next == tips[pos].page.next
    ensures Linked(Splice(tips, pos, s), end)
  {
    var t := Splice(tips, pos, s);
    forall i | 0 <= i < |t| ensures t[i].page.next == RightOf(t, i, end) {
      SpliceAt(tips, pos, s, i);
      if i + 1 < |t| { SpliceAt(tips, pos, s, i + 1); }
      var j := if i < pos + |s| then Min(i, pos) else i - |s| + 1;
      assert tips[j].page.next == RightOf(tips, j, end);
    }
  }

  lemma SpliceSeparate(tips: seq<Tip>, pos: nat, s: seq<Tip>)
    requires Separate(tips) && pos < |tips| && 1 <= |s| <= 2
    requires s[0].leaf == tips[pos].leaf
    requires |s| == 2 ==> s[1].leaf !in Leaves(tips)
    ensures Separate(Splice(tips, pos, s))
  {
    var t := Splice(tips, pos, s);
    forall i, j | 0 <= i < j < |t| ensures Differ(t[i], t[j]) {
      SpliceAt(tips, pos, s, i);
      SpliceAt(tips, pos, s, j);
      var i' := if i < pos + |s| then Min(i, pos) else i - |s| + 1;
      var j' := if j < pos + |s| then Min(j, pos) else j - |s| + 1;
      assert i' < j' ==> Differ(tips[i'], tips[j']);
      assert forall x :: 0 <= x < |tips| ==> tips[x].leaf in Leaves(tips);
    }
  }

  lemma SpliceLeaves(tips: seq<Tip>, pos: nat, s: seq<Tip>)
    requires pos < |tips| && 1 <= |s| <= 2
    requires s[0].leaf == tips[pos].leaf
    ensures Leaves(Splice(tips, pos, s)) == Leaves(tips) + if |s| == 2 then {s[1].leaf} else {}
  {
    var t := Splice(tips, pos, s);
    forall x | x in Leaves(t) ensures x in Leaves(tips) + if |s| == 2 then {s[1].leaf} else {} {
      var i :| 0 <= i < |t| && t[i].leaf == x;
      SpliceAt(tips, pos, s, i);
    }
    forall i | 0 <= i < |tips| ensures tips[i].leaf in Leaves(t) {
      SpliceAt(tips, pos, s, if i <= pos then i else i + |s| - 1);
    }
    if |s| == 2 {
      SpliceAt(tips, pos, s, pos + 1);
    }
  }

  /** An insert keeps the chain: every leaf points to its right neighbour, a new
      leaf is linked in right behind the one that split, no leaf occurs twice. */
  lemma InsertLinked(tips: seq<Tip>, n: nat, pos: nat, k: Key, v: Value, cand: Tip)
    requires PagesOk(tips, n) && pos < |tips| && n >= 2 && cand.page.Blank(n)
    requires Linked(tips, null) && Separate(tips) && cand.leaf !in Leaves(tips)
    ensures var r := InsertTips(tips, pos, k, v, cand);
      && Linked(r, null) && Separate(r)
      && Leaves(r) == Leaves(tips) + if tips[pos].page.Full() then {cand.leaf} else {}
  {
    StepLinks(tips[pos], n, k, v, cand);
    SpliceLinked(tips, pos, LeafStep(tips[pos], k, v, cand), null);
    SpliceSeparate(tips, pos, LeafStep(tips[pos], k, v, cand));
    SpliceLeaves(tips, pos, LeafStep(tips[pos], k, v, cand));
  }
}
