/** Walking the leaf chain (XTreeIter, XTreeSIter): which keys the iterators
    yield, in which order, from which slot of which page. */
module TreeIter {
  import opened Keys
  import opened Sorting
  import opened XNode
  import opened BTree
  import opened TreeOrder
  import opened LeafChain
  import opened Occupancy
  import opened Store
  import opened TreeInner
  import opened XTree

  /** Key number slot of page number page. */
  datatype Item = Item(page: nat, slot: nat, key: Key)

  /** The copy of a page's keys that an iterator steps through. */
  function Arranged(keys: seq<Key>, sorted: bool): (r: seq<Key>)
    ensures |r| == |keys|
  {
    if sorted then Sort(keys) else keys
  }

  /** The keys in the slots of a page from slot i on. */
  function Slots(keys: seq<Key>, page: nat, i: nat): seq<Item>
    requires i <= |keys|
    decreases |keys| - i
  {
    if i == |keys| then []
    else if keys[i] == INVALID then Slots(keys, page, i + 1)
    else [Item(page, i, keys[i])] + Slots(keys, page, i + 1)
  }

  /** Everything an iterator yields from page p on. */
  function ItemsFrom(tips: seq<Tip>, sorted: bool, p: nat): seq<Item>
    requires p <= |tips|
    decreases |tips| - p
  {
    if p == |tips| then []
    else Slots(Arranged(tips[p].page.keys, sorted), p, 0) + ItemsFrom(tips, sorted, p + 1)
  }

  // ---------- where the items come from ----------

  ghost predicate SlotOf(x: Item, keys: seq<Key>) {
    x.slot < |keys| && keys[x.slot] == x.key != INVALID
  }

  ghost predicate Earlier(x: Item, y: Item) {
    x.page < y.page || (x.page == y.page && x.slot < y.slot)
  }

  ghost predicate InOrder(items: seq<Item>) {
    forall a, b {:trigger Earlier(items[a], items[b])} :: 0 <= a < b < |items| ==> Earlier(items[a], items[b])
  }

  lemma {:induction false} SlotsOk(keys: seq<Key>, page: nat, i: nat)
    requires i <= |keys|
    ensures forall x :: x in Slots(keys, page, i) <==> x.page == page && i <= x.slot && SlotOf(x, keys)
    ensures InOrder(Slots(keys, page, i))
    decreases |keys| - i
  {
    if i < |keys| {
      SlotsOk(keys, page, i + 1);
      if keys[i] != INVALID {
        var rest := Slots(keys, page, i + 1);
        InOrderConcat([Item(page, i, keys[i])], rest);
      }
    }
  }

  lemma InOrderConcat(a: seq<Item>, b: seq<Item>)
    requires InOrder(a) && InOrder(b)
    requires forall x, y :: x in a && y in b ==> Earlier(x, y)
    ensures InOrder(a + b)
  {
    var c := a + b;
    forall i, j | 0 <= i < j < |c| ensures Earlier(c[i], c[j]) {
      if j < |a| {
        assert Earlier(a[i], a[j]);
      } else if i >= |a| {
        assert Earlier(b[i - |a|], b[j - |a|]);
      } else {
        assert c[i] in a && c[j] in b;
      }
    }
  }

  /** The item names a valid slot of the pages from p on. */
  ghost predicate ItemOf(x: Item, tips: seq<Tip>, sorted: bool, p: nat) {
    p <= x.page < |tips| && SlotOf(x, Arranged(tips[x.page].page.keys, sorted))
  }

  /** The items are exactly the occupied slots, in order. */
  lemma {:induction false} ItemsOk(tips: seq<Tip>, sorted: bool, p: nat)
    requires p <= |tips|
    ensures forall x :: x in ItemsFrom(tips, sorted, p) <==> ItemOf(x, tips, sorted, p)
    ensures InOrder(ItemsFrom(tips, sorted, p))
    decreases |tips| - p
  {
    if p < |tips| {
      SlotsOk(Arranged(tips[p].page.keys, sorted), p, 0);
      ItemsOk(tips, sorted, p + 1);
      InOrderConcat(Slots(Arranged(tips[p].page.keys, sorted), p, 0), ItemsFrom(tips, sorted, p + 1));
    }
  }

  /** The other iterator yields the keys in the slots where the pages have them. */
  lemma ItemsPlain(tips: seq<Tip>, p: nat, x: Item)
    requires p <= |tips|
    ensures x in ItemsFrom(tips, false, p) <==>
      && p <= x.page < |tips| && x.slot < |tips[x.page].page.keys|
      && tips[x.page].page.keys[x.slot] == x.key && x.key != INVALID
    ensures InOrder(ItemsFrom(tips, false, p))
  {
    ItemsOk(tips, false, p);
  }

  // ---------- complete and ordered ----------

  ghost function KeysOf(items: seq<Item>): set<Key> {
    set i | 0 <= i < |items| :: items[i].key
  }

  lemma ArrangedMembers(keys: seq<Key>, sorted: bool)
    ensures forall k :: k in Arranged(keys, sorted) <==> k in keys
  {
    SortMembers(keys);
  }

  /** Every key of the pages from p on is yielded, and nothing else. */
  lemma ItemsComplete(tips: seq<Tip>, sorted: bool, p: nat, k: Key)
    requires p <= |tips|
    ensures k in KeysOf(ItemsFrom(tips, sorted, p)) <==> exists q :: p <= q < |tips| && k in KeySet(tips[q].page.keys)
  {
    var items := ItemsFrom(tips, sorted, p);
    ItemsOk(tips, sorted, p);
    if q :| p <= q < |tips| && k in KeySet(tips[q].page.keys) {
      ArrangedMembers(tips[q].page.keys, sorted);
      var a := Arranged(tips[q].page.keys, sorted);
      var j :| 0 <= j < |a| && a[j] == k;
      assert ItemOf(Item(q, j, k), tips, sorted, p);
      assert Item(q, j, k) in items;
    }
    if k in KeysOf(items) {
      var i :| 0 <= i < |items| && items[i].key == k;
      assert ItemOf(items[i], tips, sorted, p);
      ArrangedMembers(tips[items[i].page].page.keys, sorted);
    }
  }

  lemma ItemKey(tips: seq<Tip>, sorted: bool, p: nat, x: Item)
    requires ItemOf(x, tips, sorted, p)
    ensures x.key in KeySet(tips[x.page].page.keys)
  {
    ArrangedMembers(tips[x.page].page.keys, sorted);
    assert x.key in Arranged(tips[x.page].page.keys, sorted);
  }

  /** Within a page the sorted iterator's keys rise with the slot, across pages
      every iterator's do. */
  lemma ItemsRise(tips: seq<Tip>, n: nat, sorted: bool, p: nat, x: Item, y: Item)
    requires PagesOk(tips, n) && Ascending(tips) && ItemOf(x, tips, sorted, p) && ItemOf(y, tips, sorted, p)
    ensures x.page < y.page ==> x.key < y.key
    ensures sorted && Earlier(x, y) ==> x.key < y.key
    ensures Earlier(x, y) ==> x.key != y.key
  {
    ItemKey(tips, sorted, p, x);
    ItemKey(tips, sorted, p, y);
    if x.page < y.page {
      assert Before(tips[x.page].page, tips[y.page].page);
    } else if x.page == y.page && x.slot < y.slot {
      var keys := tips[x.page].page.keys;
      SortOk(keys);
      SortDistinct(keys);
      DistinctSpread(Arranged(keys, sorted));
    }
  }

  /** The iterator yields in strictly ascending order. */
  ghost predicate Climbing(items: seq<Item>) {
    forall a, b :: 0 <= a < b < |items| ==> items[a].key < items[b].key
  }

  /** No key is yielded twice, and a page's keys are all below the next page's. */
  ghost predicate PageByPage(items: seq<Item>) {
    forall a, b :: 0 <= a < b < |items| ==>
      && items[a].key != items[b].key
      && items[a].page <= items[b].page
      && (items[a].page < items[b].page ==> items[a].key < items[b].key)
  }

  lemma ItemsClimb(tips: seq<Tip>, n: nat, sorted: bool, p: nat)
    requires PagesOk(tips, n) && Ascending(tips) && p <= |tips|
    ensures PageByPage(ItemsFrom(tips, sorted, p))
    ensures sorted ==> Climbing(ItemsFrom(tips, sorted, p))
  {
    var items := ItemsFrom(tips, sorted, p);
    ItemsOk(tips, sorted, p);
    forall a, b | 0 <= a < b < |items|
      ensures Earlier(items[a], items[b]) && items[a].key != items[b].key
      ensures items[a].page < items[b].page || sorted ==> items[a].key < items[b].key
    {
      assert items[a] in items && items[b] in items;
      ItemsRise(tips, n, sorted, p, items[a], items[b]);
    }
  }

  lemma WalkKeys(tips: seq<Tip>, n: nat, sorted: bool)
    requires PagesOk(tips, n)
    ensures KeysOf(ItemsFrom(tips, sorted, 0)) == Contents(tips, n).Keys
  {
    forall k: Key ensures k in KeysOf(ItemsFrom(tips, sorted, 0)) <==> k in Contents(tips, n) {
      ItemsComplete(tips, sorted, 0, k);
      ContentsMember(tips, n, k);
      assert forall q :: 0 <= q < |tips| ==> tips[q].page.Entries().Keys == KeySet(tips[q].page.keys);
    }
  }

  /** From the first leaf, an iterator yields every stored key exactly once:
      the sorted one in strictly ascending order, the other page by page. */
  lemma WalkComplete(s: State, n: nat, sorted: bool)
    requires WellFormed(s, n)
    ensures KeysOf(ItemsFrom(StoreTips(s), sorted, 0)) == Pairs(s, n).Keys
    ensures PageByPage(ItemsFrom(StoreTips(s), sorted, 0))
    ensures sorted ==> Climbing(ItemsFrom(StoreTips(s), sorted, 0))
  {
    StorePages(s, n);
    TipsAscend(s, n);
    WalkKeys(StoreTips(s), n, sorted);
    ItemsClimb(StoreTips(s), n, sorted, 0);
  }

  lemma TipsAscend(s: State, n: nat)
    requires WellFormed(s, n)
    ensures Ascending(StoreTips(s))
  {
    if s.root.Some? {
      OrderedAscending(s.root.value, MIN_KEY, INVALID);
    }
  }

  // ---------- the iterators ----------

  ghost predicate HasKey(p: Page) {
    KeySet(p.keys) != {}
  }

  /** Every page holds a key. */
  ghost predicate NonEmpty(tips: seq<Tip>) {
    forall i {:trigger HasKey(tips[i].page)} :: 0 <= i < |tips| ==> HasKey(tips[i].page)
  }

  lemma StoreNonEmpty(s: State, n: nat)
    requires WellFormed(s, n)
    ensures NonEmpty(StoreTips(s))
  {
    var tips := StoreTips(s);
    StorePages(s, n);
    if s.depth >= 1 {
      forall i | 0 <= i < |tips| ensures HasKey(tips[i].page) {
        assert FilledPage(tips[i].page, n);
      }
    }
  }

  /** Slots i to j are empty. */
  ghost predicate Vacant(keys: seq<Key>, i: nat, j: nat) {
    i <= j <= |keys| && forall s :: i <= s < j ==> keys[s] == INVALID
  }

  /** A chain of live, occupied leaves. */
  ghost predicate Walkable(tips: seq<Tip>, n: nat, fp: set<object>)
    reads fp
  {
    Live(tips, n, fp) && Linked(tips, null) && NonEmpty(tips)
  }

  /** What is left of a page whose slots below i are empty or done. */
  lemma {:induction false} SlotsSkip(keys: seq<Key>, page: nat, i: nat, j: nat)
    requires i <= j <= |keys| && Vacant(keys, i, j)
    ensures Slots(keys, page, i) == Slots(keys, page, j)
    decreases j - i
  {
    if i < j {
      SlotsSkip(keys, page, i + 1, j);
    }
  }

  /** The slots left once slot i is done and j is the next occupied one. */
  lemma SlotsNext(keys: seq<Key>, page: nat, i: nat, j: nat, after: seq<Item>)
    requires i < j <= |keys| && keys[i] != INVALID && Vacant(keys, i + 1, j)
    ensures Slots(keys, page, i) + after == [Item(page, i, keys[i])] + (Slots(keys, page, j) + after)
  {
    SlotsSkip(keys, page, i + 1, j);
  }

  lemma SlotsSome(keys: seq<Key>, page: nat)
    requires KeySet(keys) != {}
    ensures Slots(keys, page, 0) != []
  {
    SlotsOk(keys, page, 0);
    var k :| k in KeySet(keys);
    var j :| 0 <= j < |keys| && keys[j] == k;
    assert SlotOf(Item(page, j, k), keys);
    assert Item(page, j, k) in Slots(keys, page, 0);
  }

  /** The leaf found for the smallest key is the first. */
  lemma {:induction false} MinFirst(t: Tree, n: nat, d: nat, hi: Key)
    requires Shaped(t, n, d) && Ordered(t, MIN_KEY, hi)
    ensures LeafPos(t, n, d, MIN_KEY) == 0
    decreases t
  {
    match t
    case Bottom(tip) =>
    case Fork(seps, kids) =>
      MinFirst(kids[0], n, d - 1, Fence(MIN_KEY, seps, hi, 1));
  }

  /** A walk that starts with a seek for k yields every stored key from k on;
      it may start with smaller keys of k's page. */
  lemma SeekComplete(s: State, n: nat, sorted: bool, k: Key, x: Key)
    requires WellFormed(s, n) && s.root.Some? && x in Pairs(s, n) && k <= x && k != INVALID
    ensures LeafPos(s.root.value, n, s.depth, k) < |StoreTips(s)|
    ensures x in KeysOf(ItemsFrom(StoreTips(s), sorted, LeafPos(s.root.value, n, s.depth, k)))
  {
    var tips, p := StoreTips(s), LeafPos(s.root.value, n, s.depth, k);
    StorePages(s, n);
    FindSplits(s.root.value, n, s.depth, MIN_KEY, INVALID, k);
    ContentsMember(tips, n, x);
    var q :| 0 <= q < |tips| && x in tips[q].page.Entries();
    assert x in KeySet(tips[q].page.keys);
    ItemsComplete(tips, sorted, p, x);
  }

  /** Both iterators: the sorted one works on a sorted copy of each page. */
  class LeafCursor {
    const n: nat
    const sorted: bool
    var curNode: Option<seq<Key>>
    var curNodePtr: Leaf?
    var nextPtr: Leaf?
    var idx: nat
    var counter: nat
    // the chain being walked, and the position of the current leaf in it
    ghost var tips: seq<Tip>
    ghost var pos: nat
    ghost var fp: set<object>

    /** An iterator starts at the smallest key. */
    constructor (kv: XTree, sorted: bool)
      requires kv.Valid() && kv.root != Null
      ensures Valid() && n == kv.n && this.sorted == sorted && fresh(this)
      ensures tips == StoreTips(kv.state) && fp == kv.repr && pos == 0
      ensures counter == 0 && Rest() == ItemsFrom(tips, sorted, 0) && Rest() != []
    {
      this.n, this.sorted := kv.n, sorted;
      curNode, curNodePtr, nextPtr, idx, counter := None, null, null, 0, 0;
      new;
      MinFirst(kv.state.root.value, kv.n, kv.depth, INVALID);
      Seek(MIN_KEY, kv, kv.state);
    }

    ghost predicate Chain()
      reads this, fp
    {
      this !in fp && n > 0 && Walkable(tips, n, fp)
    }

    ghost predicate Valid()
      reads this, fp
    {
      && Chain() && pos <= |tips| && idx <= n
      && (curNode.None? ==> pos == |tips|)
      && (curNode.Some? ==> Loaded() && idx < n && curNode.value[idx] != INVALID)
    }

    /** The copy is the page of the leaf at pos. */
    ghost predicate Loaded()
      reads this
    {
      && curNode.Some? && pos < |tips|
      && curNodePtr == tips[pos].leaf && nextPtr == RightOf(tips, pos, null)
      && curNode.value == Arranged(tips[pos].page.keys, sorted) && |curNode.value| == n
    }

    /** The keys still to come, the current one first. */
    ghost function Rest(): seq<Item>
      reads this
    {
      if curNode.None? || idx > |curNode.value| || pos >= |tips| then []
      else Slots(curNode.value, pos, idx) + ItemsFrom(tips, sorted, pos + 1)
    }

    method SeekIdx()
      requires curNode.Some? && |curNode.value| == n && idx <= n
      modifies this`idx
      ensures old(idx) <= idx <= n
      ensures Vacant(curNode.value, old(idx), idx)
      ensures idx < n ==> curNode.value[idx] != INVALID
    {
      while idx < n && curNode.value[idx] == INVALID
        invariant old(idx) <= idx <= n
        invariant Vacant(curNode.value, old(idx), idx)
      {
        idx := idx + 1;
      }
    }

    /** Copy the leaf, if there is one. */
    method ReadFrom(node: Leaf?, ghost p: nat)
      requires Chain() && p <= |tips| && node == if p < |tips| then tips[p].leaf else null
      modifies this`curNode, this`curNodePtr, this`nextPtr, this`pos
      ensures pos == p && curNode.Some? == (p < |tips|)
      ensures curNode.Some? ==> Loaded()
    {
      pos := p;
      if node != null {
        assert LiveTip(tips[p], n, fp);
        nextPtr := node.next;
        var tempKeys := node.keys[..];
        curNode := Some(if sorted then Sort(tempKeys) else tempKeys);
        curNodePtr := node;
      } else {
        curNode := None;
        curNodePtr := null;
      }
    }

    /** The first key of the page just loaded. */
    method Rewind()
      requires Chain() && Loaded()
      modifies this`idx
      ensures Valid() && Rest() == ItemsFrom(tips, sorted, pos) && Rest() != []
    {
      idx := 0;
      SlotsPresent(tips, sorted, pos);
      SeekIdx();
      SlotsSkip(curNode.value, pos, 0, idx);
    }

    method Next()
      requires Valid() && curNode.Some?
      modifies this`curNode, this`curNodePtr, this`nextPtr, this`idx, this`counter, this`pos
      ensures Valid() && old(Rest()) != [] && Rest() == old(Rest())[1..]
      ensures old(pos) <= pos <= old(pos) + 1
      ensures counter == old(counter) + if Rest() != [] then 1 else 0
    {
      Step();
      if idx != n {
        counter := counter + 1;
        return;
      }
      NextPage();
    }

    /** To the next occupied slot of the page, or to its end. */
    method Step()
      requires Valid() && curNode.Some?
      modifies this`idx
      ensures Chain() && Loaded() && idx <= n && (idx < n ==> curNode.value[idx] != INVALID)
      ensures old(Rest()) != []
      ensures old(Rest())[1..] == Slots(curNode.value, pos, idx) + ItemsFrom(tips, sorted, pos + 1)
    {
      ghost var i := idx;
      idx := idx + 1;
      SeekIdx();
      SlotsNext(curNode.value, pos, i, idx, ItemsFrom(tips, sorted, pos + 1));
    }

    method NextPage()
      requires Chain() && Loaded() && idx <= n
      modifies this`curNode, this`curNodePtr, this`nextPtr, this`idx, this`counter, this`pos
      ensures Valid() && Rest() == ItemsFrom(tips, sorted, old(pos) + 1) && pos == old(pos) + 1
      ensures counter == old(counter) + if Rest() != [] then 1 else 0
    {
      ReadFrom(nextPtr, pos + 1);
      if curNode.Some? {
        Rewind();
        counter := counter + 1;
      }
    }

    /** The current leaf, its page, and the current key. */
    lemma OnLeaf()
      requires Valid() && curNode.Some?
      ensures curNodePtr == tips[pos].leaf && curNodePtr.View() == tips[pos].page
      ensures Rest() != [] && Rest()[0] == Item(pos, idx, curNode.value[idx])
    {
      assert LiveTip(tips[pos], n, fp);
    }

    method HasNext() returns (b: bool)
      requires Valid()
      ensures b == (Rest() != []) == curNode.Some?
    {
      b := curNode.Some?;
    }

    method CurKey() returns (k: Key)
      requires Valid() && curNode.Some?
      ensures Rest() != [] && k == Rest()[0].key
    {
      k := curNode.value[idx];
    }

    /** Start at the first key of the leaf that find_leaf finds for k. */
    method Seek(k: Key, kv: XTree, ghost s: State)
      requires kv.Valid() && kv.root != Null && kv.n == n && this !in kv.repr
      requires kv.state == s && WellFormed(s, n) && s.root.Some?
      modifies this
      ensures Valid() && tips == StoreTips(s) && fp == kv.repr
      ensures pos == LeafPos(s.root.value, n, s.depth, k)
      ensures counter == 0 && Rest() == ItemsFrom(tips, sorted, pos) && Rest() != []
    {
      var node := kv.FindLeaf(k);
      Attach(k, kv, s);
      Start(node, LeafPos(s.root.value, n, s.depth, k));
    }

    method Start(node: Leaf, ghost p: nat)
      requires Chain() && p < |tips| && node == tips[p].leaf
      modifies this`curNode, this`curNodePtr, this`nextPtr, this`idx, this`counter, this`pos
      ensures Valid() && pos == p && counter == 0 && Rest() == ItemsFrom(tips, sorted, p) && Rest() != []
    {
      ReadFrom(node, p);
      counter := 0;
      Rewind();
    }

    ghost method Attach(k: Key, kv: XTree, s: State)
      requires kv.Valid() && kv.root != Null && kv.n == n && this !in kv.repr
      requires kv.state == s && WellFormed(s, n) && s.root.Some?
      modifies this`tips, this`fp
      ensures tips == StoreTips(s) && fp == kv.repr && Chain()
      ensures LeafPos(s.root.value, n, s.depth, k) < |tips|
      ensures tips[LeafPos(s.root.value, n, s.depth, k)] == FindTip(s.root.value, n, s.depth, k)
    {
      tips, fp := StoreTips(s), kv.repr;
      kv.LiveTips();
      StoreNonEmpty(s, n);
      FindTipPos(s.root.value, n, s.depth, k);
    }
  }

  lemma SlotsPresent(tips: seq<Tip>, sorted: bool, p: nat)
    requires p < |tips| && NonEmpty(tips)
    ensures exists j :: 0 <= j < |tips[p].page.keys| && Arranged(tips[p].page.keys, sorted)[j] != INVALID
    ensures Slots(Arranged(tips[p].page.keys, sorted), p, 0) != []
  {
    assert HasKey(tips[p].page);
    var keys := tips[p].page.keys;
    var a := Arranged(keys, sorted);
    ArrangedMembers(keys, sorted);
    var k :| k in KeySet(keys);
    assert k in a;
    var j :| 0 <= j < |a| && a[j] == k;
    assert k in KeySet(a);
    SlotsSome(a, p);
  }
}
