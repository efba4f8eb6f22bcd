/** Training on page ends that are then thinned out by steps of two, as the YCSB
    server does: what that means for the keys of a tree. */
module Shrinking {
  import opened Keys
  import opened Sorting
  import opened XNode
  import opened BTree
  import opened LeafChain
  import opened Occupancy
  import opened Store
  import opened TreeIter
  import opened TTIter
  import opened Samplers
  import opened SubModel
  import opened Trainer
  import opened Reach
  import opened Rmi
  import opened SmallTrees
  import Runs

  // ---------- pages with two ends ----------

  /** None of the first m samples is alone on its page. */
  ghost predicate NoneAlone(n: Pos, xs: seq<Sample>, m: nat) {
    m <= |xs| && forall i {:trigger Opens(n, xs, i)} :: 0 <= i < m ==> !(Opens(n, xs, i) && Closes(n, xs, i))
  }

  lemma {:induction false} EvenEnds(n: Pos, xs: seq<Sample>, m: nat)
    requires NoneAlone(n, xs, m) && (m > 0 ==> Closes(n, xs, m - 1))
    ensures |Ends(n, xs, m)| % 2 == 0
  {
    if m > 0 {
      var g := StartAt(n, xs, m);
      StartGroup(n, xs, m);
      assert g > 0 ==> Closes(n, xs, g - 1);
      EvenEnds(n, xs, g);
      EndsGroup(n, xs, g, m);
      assert g < m - 1;
    }
  }

  /** If only samples of the last page can be alone on their page, the last page
      end that steps of two keep is on the last page. */
  lemma LastEndKept(n: Pos, xs: seq<Sample>)
    requires xs != [] && NoneAlone(n, xs, StartAt(n, xs, |xs|))
    ensures var ends := Ends(n, xs, |xs|);
      && ends != [] && LastStep(|ends|, 2) < |ends|
      && PageId(n, ends[LastStep(|ends|, 2)].mark) == PageId(n, xs[|xs| - 1].mark)
  {
    var g := StartAt(n, xs, |xs|);
    StartGroup(n, xs, |xs|);
    assert g > 0 ==> Closes(n, xs, g - 1);
    EvenEnds(n, xs, g);
    EndsGroup(n, xs, g, |xs|);
    LastEven(|Ends(n, xs, g)|, |GroupEnds(xs, g, |xs|)|);
  }

  lemma LastEven(a: nat, k: nat)
    requires a % 2 == 0 && 1 <= k <= 2
    ensures LastStep(a + k, 2) == a
  {}

  // ---------- the pages of a tree ----------

  /** A key of a leaf that the walk reaches is sampled with that leaf's page. */
  lemma LeafSampled(tips: seq<Tip>, n: nat, start: nat, hi: Key, q: nat, k: Key) returns (j: nat)
    requires n > 0 && PagesOk(tips, n) && Ascending(tips) && start <= q < |tips|
    requires k in KeySet(tips[q].page.keys) && k <= hi
    ensures var xs := Feed(tips, n, start, hi);
      j < |xs| && xs[j].key == k && start + PageId(n, xs[j].mark) == q
  {
    ItemsComplete(tips, true, start, k);
    j := KeyIndex(tips, n, start, hi, k);
    FeedPage(tips, n, start, hi, j);
    var p := start + PageId(n, Feed(tips, n, start, hi)[j].mark);
    assert p < q ==> Before(tips[p].page, tips[q].page);
    assert q < p ==> Before(tips[q].page, tips[p].page);
  }

  lemma Another(keys: set<Key>, k: Key) returns (x: Key)
    requires |keys| >= 2
    ensures x in keys && x != k
  {
    var rest := keys - {k};
    assert |rest| >= |keys| - 1;
    x :| x in rest;
  }

  /** In an ascending feed, a sample that is alone on its page is the only one of
      that page. */
  lemma AloneIsOnly(n: Pos, xs: seq<Sample>, i: nat, j: nat)
    requires Ascends(xs) && i < |xs| && j < |xs| && Opens(n, xs, i) && Closes(n, xs, i)
    requires PageId(n, xs[i].mark) == PageId(n, xs[j].mark)
    ensures i == j
  {
    if i < j {
      PageMonotone(n, xs[i].mark, xs[i + 1].mark);
      PageMonotone(n, xs[i + 1].mark, xs[j].mark);
    } else if j < i {
      PageMonotone(n, xs[j].mark, xs[i - 1].mark);
      PageMonotone(n, xs[i - 1].mark, xs[i].mark);
    }
  }

  /** With at least two keys a leaf, no sample before those of the last page is
      alone on its page. */
  lemma PagesShared(tips: seq<Tip>, n: Pos, start: nat, hi: Key, i: nat, l: nat)
    requires PagesOk(tips, n) && Ascending(tips) && start <= |tips|
    requires Filled(tips, n)
    requires n >= 4 && i < l < |Feed(tips, n, start, hi)|
    requires var xs := Feed(tips, n, start, hi); PageId(n, xs[i].mark) < PageId(n, xs[l].mark)
    ensures var xs := Feed(tips, n, start, hi); !(Opens(n, xs, i) && Closes(n, xs, i))
  {
    var xs := Feed(tips, n, start, hi);
    FeedRises(tips, n, start, hi);
    FeedPage(tips, n, start, hi, i);
    FeedPage(tips, n, start, hi, l);
    FeedBelow(tips, n, start, hi, l);
    var q := start + PageId(n, xs[i].mark);
    assert FilledPage(tips[q].page, n);
    FullSize(tips[q].page, n);
    EntryKeys(tips[q].page, n);
    var k := Another(KeySet(tips[q].page.keys), xs[i].key);
    assert Before(tips[q].page, tips[start + PageId(n, xs[l].mark)].page);
    var j := LeafSampled(tips, n, start, hi, q, k);
    if Opens(n, xs, i) && Closes(n, xs, i) {
      AloneIsOnly(n, xs, i, j);
    }
  }

  lemma EntryKeys(p: Page, n: nat)
    requires p.Valid(n)
    ensures |p.Entries()| == |KeySet(p.keys)|
  {
    FullSize(p, n);
    assert |p.Entries()| == |p.Entries().Keys|;
  }

  lemma FeedBelow(tips: seq<Tip>, n: nat, start: nat, hi: Key, i: nat)
    requires start <= |tips| && i < |Feed(tips, n, start, hi)|
    ensures Feed(tips, n, start, hi)[i].key <= hi
  {
    UptoFrom(tips, start, hi);
    var m := UptoPrefix(ItemsFrom(tips, true, start), hi);
  }

  lemma FeedShared(s: State, n: Pos, lo: Key, hi: Key)
    requires WellFormed(s, n) && s.root.Some? && n >= 4 && FeedOf(s, n, lo, hi) != []
    ensures Ascends(FeedOf(s, n, lo, hi))
    ensures var xs := FeedOf(s, n, lo, hi); NoneAlone(n, xs, StartAt(n, xs, |xs|))
  {
    var tips, start, xs := StoreTips(s), LeafPos(s.root.value, n, s.depth, lo), FeedOf(s, n, lo, hi);
    StorePages(s, n);
    TipsAscend(s, n);
    FindTipPos(s.root.value, n, s.depth, lo);
    FeedRises(tips, n, start, hi);
    var g := StartAt(n, xs, |xs|);
    StartGroup(n, xs, |xs|);
    forall i | 0 <= i < g ensures !(Opens(n, xs, i) && Closes(n, xs, i)) {
      BeforeStart(n, xs, i);
      TwoPages(s, n, lo, hi, i, |xs| - 1);
      PagesShared(tips, n, start, hi, i, |xs| - 1);
    }
  }

  lemma BeforeStart(n: Pos, xs: seq<Sample>, i: nat)
    requires Ascends(xs) && xs != [] && i < StartAt(n, xs, |xs|)
    ensures PageId(n, xs[i].mark) < PageId(n, xs[|xs| - 1].mark)
  {
    var g := StartAt(n, xs, |xs|);
    StartGroup(n, xs, |xs|);
    PageMonotone(n, xs[i].mark, xs[g - 1].mark);
    PageMonotone(n, xs[g - 1].mark, xs[g].mark);
    assert PageId(n, xs[g].mark) == PageId(n, xs[|xs| - 1].mark);
  }

  /** A tree whose samples are on two pages has inner nodes, so its leaves are
      half full. */
  lemma TwoPages(s: State, n: Pos, lo: Key, hi: Key, i: nat, l: nat)
    requires WellFormed(s, n) && s.root.Some? && i < |FeedOf(s, n, lo, hi)| && l < |FeedOf(s, n, lo, hi)|
    requires var xs := FeedOf(s, n, lo, hi); PageId(n, xs[i].mark) < PageId(n, xs[l].mark)
    ensures Filled(StoreTips(s), n)
  {
    StorePages(s, n);
    FindTipPos(s.root.value, n, s.depth, lo);
    FeedPage(StoreTips(s), n, LeafPos(s.root.value, n, s.depth, lo), hi, l);
    assert s.depth == 0 ==> |StoreTips(s)| == 1;
  }

  /** Sampling the page ends and then every second of them loses no page of any
      tree with at least four slots a leaf: for a function that does not fall,
      every key of the trainer is in reach. */
  lemma SampledStepTwo(s: State, n: Pos, lo: Key, hi: Key, f: Updater, ml: Key -> real, errMin: int, errMax: int)
    requires WellFormed(s, n) && s.root.Some? && n >= 4
    requires PageWise(f, n) && Monotone(ml, FeedOf(s, n, lo, hi))
    requires var ends := Kept(PageEnds(n), FeedOf(s, n, lo, hi));
      AllReached(f, ml, CapOf(Kept(EveryStep(2), ends)), errMin, errMax, ends)
    ensures var xs := FeedOf(s, n, lo, hi);
      AllInPages(n, ml, errMin, errMax, CapOf(Kept(EveryStep(2), Kept(PageEnds(n), xs))), xs)
  {
    var xs := FeedOf(s, n, lo, hi);
    if xs != [] {
      FeedShared(s, n, lo, hi);
      LastEndKept(n, xs);
      PageEndsKept(n, xs);
      SampledAndShrunk(n, f, ml, errMin, errMax, xs, 2);
    }
  }

  // ---------- leaves with two or three slots ----------

  /** The last key of the first trainer. */
  function SmallHi(n: nat): Key {
    if n == 2 then 40 else 35
  }

  /** What the first trainer reads. */
  function SmallFeed(n: nat): seq<Sample> {
    [Sample(20, 0), Sample(30, n), Sample(if n == 2 then 35 else 32, n + 1), Sample(SmallHi(n), 2 * n)]
  }

  /** The keys of the small tree's leaves, as the sorted iterator goes through
      them. */
  function SmallArranged(n: nat): seq<seq<Key>> {
    if n == 2 then [[20, INVALID], [30, 35], [40, INVALID]]
    else [[20, INVALID, INVALID], [30, 32, INVALID], [35, 40, 50]]
  }

  lemma SmallPages(n: nat, a: Leaf, b: Leaf, c: Leaf)
    requires 2 <= n <= 3
    ensures var tips := StoreTips(SmallTree(n, a, b, c));
      |tips| == 3 && forall i :: 0 <= i < 3 ==> Sort(tips[i].page.keys) == SmallArranged(n)[i]
  {
    if n == 2 {
      ThreeTips(30, 40, LeafOf(2, a, [20], 1, b), LeafOf(2, b, [30, 35], 1, c), LeafOf(2, c, [40], 0, null));
      SortedTwo(20, INVALID);
      SortedTwo(30, 35);
      SortedTwo(40, INVALID);
      assert Padded(2, [20]) == [20, INVALID] && Padded(2, [30, 35]) == [30, 35] && Padded(2, [40]) == [40, INVALID];
    } else {
      ThreeTips(30, 35, LeafOf(3, a, [20], 1, b), LeafOf(3, b, [30, 32], 1, c), LeafOf(3, c, [35, 40, 50], 0, null));
      SortedThree(20, INVALID, INVALID);
      SortedThree(30, 32, INVALID);
      SortedThree(35, 40, 50);
      assert Padded(3, [20]) == [20, INVALID, INVALID] && Padded(3, [30, 32]) == [30, 32, INVALID];
      assert Padded(3, [35, 40, 50]) == [35, 40, 50];
    }
  }

  lemma SlotsTwo(x: Key, y: Key, page: nat)
    requires x != INVALID
    ensures Slots([x, y], page, 0) == [Item(page, 0, x)] + if y == INVALID then [] else [Item(page, 1, y)]
  {
    assert Slots([x, y], page, 2) == [];
    assert Slots([x, y], page, 1) == if y == INVALID then [] else [Item(page, 1, y)];
  }

  lemma SlotsThree(x: Key, y: Key, z: Key, page: nat)
    requires x != INVALID && (y == INVALID ==> z == INVALID)
    ensures Slots([x, y, z], page, 0)
         == [Item(page, 0, x)] + (if y == INVALID then [] else [Item(page, 1, y)])
                               + (if z == INVALID then [] else [Item(page, 2, z)])
  {
    assert Slots([x, y, z], page, 3) == [];
    assert Slots([x, y, z], page, 2) == if z == INVALID then [] else [Item(page, 2, z)];
    assert Slots([x, y, z], page, 1)
        == (if y == INVALID then [] else [Item(page, 1, y)]) + (if z == INVALID then [] else [Item(page, 2, z)]);
  }

  function SmallItems(n: nat): seq<Item> {
    [Item(0, 0, 20), Item(1, 0, 30), Item(1, 1, if n == 2 then 35 else 32), Item(2, 0, SmallHi(n))]
  }

  lemma SmallWalk(n: nat, tips: seq<Tip>, a: Leaf, b: Leaf, c: Leaf)
    requires tips == StoreTips(SmallTree(n, a, b, c)) && 2 <= n <= 3
    ensures ItemsFrom(tips, true, 0) == SmallItems(n) + if n == 2 then [] else [Item(2, 1, 40), Item(2, 2, 50)]
  {
    SmallPages(n, a, b, c);
    var ks := SmallArranged(n);
    assert ItemsFrom(tips, true, 3) == [];
    assert ItemsFrom(tips, true, 2) == Slots(ks[2], 2, 0);
    assert ItemsFrom(tips, true, 1) == Slots(ks[1], 1, 0) + Slots(ks[2], 2, 0);
    assert ItemsFrom(tips, true, 0) == Slots(ks[0], 0, 0) + (Slots(ks[1], 1, 0) + Slots(ks[2], 2, 0));
    if n == 2 {
      SlotsTwo(20, INVALID, 0);
      SlotsTwo(30, 35, 1);
      SlotsTwo(40, INVALID, 2);
    } else {
      SlotsThree(20, INVALID, INVALID, 0);
      SlotsThree(30, 32, INVALID, 1);
      SlotsThree(35, 40, 50, 2);
    }
  }

  lemma SmallUpto(n: nat, items: seq<Item>)
    requires items == SmallItems(n) + (if n == 2 then [] else [Item(2, 1, 40), Item(2, 2, 50)])
    ensures Upto(items, SmallHi(n)) == SmallItems(n)
  {
    var m := UptoPrefix(items, SmallHi(n));
    assert items[0].key == 20 && items[1].key == 30 && items[2].key <= 35 && items[3].key == SmallHi(n);
    assert n != 2 ==> items[4].key == 40;
    assert m == 4;
    assert items[..4] == SmallItems(n);
  }

  lemma SmallStart(n: nat, a: Leaf, b: Leaf, c: Leaf)
    requires 2 <= n <= 3 && WellFormed(SmallTree(n, a, b, c), n)
    ensures LeafPos(SmallTree(n, a, b, c).root.value, n, 1, 20) == 0
  {
    var t := SmallTree(n, a, b, c).root.value;
    assert ChildIdx(t.seps, 20) == 0 && t.kids[..0] == [];
  }

  lemma SmallFed(n: nat, a: Leaf, b: Leaf, c: Leaf)
    requires 2 <= n <= 3 && WellFormed(SmallTree(n, a, b, c), n)
    ensures FeedOf(SmallTree(n, a, b, c), n, 20, SmallHi(n)) == SmallFeed(n)
  {
    var tips := StoreTips(SmallTree(n, a, b, c));
    SmallStart(n, a, b, c);
    SmallWalk(n, tips, a, b, c);
    SmallUpto(n, ItemsFrom(tips, true, 0));
    UptoFrom(tips, 0, SmallHi(n));
  }

  lemma SmallKept(n: nat)
    requires 2 <= n <= 3
    ensures Kept(PageEnds(n), SmallFeed(n)) == SmallFeed(n)
    ensures CapOf(Kept(EveryStep(2), SmallFeed(n))) == n + 1
  {
    var xs := SmallFeed(n);
    PageEndsKept(n, xs);
    SmallPageIds(n);
    assert Ends(n, xs, 0) == [] && Ends(n, xs, 1) == xs[..1] && Ends(n, xs, 2) == xs[..2];
    assert Ends(n, xs, 3) == xs[..3] && Ends(n, xs, 4) == xs;
    CapStep(xs, 2);
    assert LastStep(4, 2) == 2;
  }

  lemma SmallPageIds(n: nat)
    requires 2 <= n <= 3
    ensures PageId(n, 0) == 0 && PageId(n, n) == 1 && PageId(n, n + 1) == 1 && PageId(n, 2 * n) == 2
  {}

  /** A first layer that sends the keys up to hi to the first of two models. */
  function Divider(hi: Key): Key -> real {
    (k: Key) => if k <= hi then 0.0 else 1.0
  }

  lemma SmallRanged(n: nat, keys: set<Key>)
    requires 2 <= n <= 3 && keys == set k | k in SmallKeys(n)
    ensures Ranged(Range(20, SmallHi(n), true), keys, Selector(Divider(SmallHi(n)), 2, 1), 0)
  {
    var hi := SmallHi(n);
    forall k: Key ensures Selector(Divider(hi), 2, 1)(k) == if k <= hi then 0 else 1 {}
    assert SmallKeys(n)[0] == 20 && SmallKeys(n)[if n == 2 then 2 else 3] == hi;
  }

  /** With two or three slots a leaf, it can lose the last page of a trainer's
      keys, in a tree that a few inserts build: the range never gets to the key
      there, whatever was learned and however wide the bounds. */
  lemma StepTwoLoses(n: nat, a: Leaf, b: Leaf, c: Leaf, d: Leaf, ml: Key -> real, errMin: int, errMax: int)
    returns (ss: seq<State>, ops: seq<Runs.Op>)
    requires a != b && b != c && a != c && d != a && d != b && d != c && 2 <= n <= 3
    ensures Builds(n, ss, ops, SmallKeys(n), SmallTree(n, a, b, c))
    ensures var s, r := SmallTree(n, a, b, c), Range(20, SmallHi(n), true);
      && Ranged(r, Pairs(s, n).Keys, Selector(Divider(SmallHi(n)), 2, 1), 0)
      && FeedOf(s, n, r.lo, r.hi) == SmallFeed(n)
      && !InPages(n, ml, errMin, errMax, CapOf(Kept(EveryStep(2), Kept(PageEnds(n), SmallFeed(n)))), SmallFeed(n)[3])
  {
    ss, ops := SmallBuilt(n, a, b, c, d);
    SmallRanged(n, Pairs(SmallTree(n, a, b, c), n).Keys);
    SmallFed(n, a, b, c);
    SmallLoses(n, ml, errMin, errMax);
  }

  lemma SmallLoses(n: nat, ml: Key -> real, errMin: int, errMax: int)
    requires 2 <= n <= 3
    ensures !InPages(n, ml, errMin, errMax, CapOf(Kept(EveryStep(2), Kept(PageEnds(n), SmallFeed(n)))), SmallFeed(n)[3])
  {
    SmallKept(n);
    SmallPageIds(n);
    BeyondCap(n, ml, errMin, errMax, n + 1, SmallFeed(n)[3]);
  }

  /** No range gets beyond its cap's page. */
  lemma BeyondCap(n: Pos, ml: Key -> real, errMin: int, errMax: int, max: nat, x: Sample)
    requires PageId(n, max) < PageId(n, x.mark)
    ensures !InPages(n, ml, errMin, errMax, max, x)
  {
    var e := PredictRange(ml, errMin, errMax, max, x.key).1;
    if e >= 0 {
      PageMonotone(n, e, max);
    }
  }

  // ---------- exactly when ----------

  /** A run from the empty tree, a first layer, the range of keys it gives to
      model m, and what was learned for them. */
  datatype Training = Training(ss: seq<State>, ops: seq<Runs.Op>, first: Key -> real, num: Pos, upBound: nat, m: nat,
                               r: Range, f: Updater, ml: Key -> real, errMin: int, errMax: int)

  ghost predicate Arises(n: nat, x: Training) {
    && Runs.Run(n, x.ss, x.ops) && x.ss[0] == EMPTY
    && var s := x.ss[|x.ops|];
       && WellFormed(s, n) && s.root.Some? && x.r.need
       && Ranged(x.r, Pairs(s, n).Keys, Selector(x.first, x.num, x.upBound), x.m)
  }

  /** If the model was trained on the page ends, with the cap that every second
      of them leaves, every key of the trainer is in reach. */
  ghost predicate ReachesAll(s: State, n: Pos, x: Training)
    requires WellFormed(s, n) && s.root.Some?
  {
    var xs := FeedOf(s, n, x.r.lo, x.r.hi);
    var ends := Kept(PageEnds(n), xs);
    var max := CapOf(Kept(EveryStep(2), ends));
    PageWise(x.f, n) && Monotone(x.ml, xs) && AllReached(x.f, x.ml, max, x.errMin, x.errMax, ends) ==>
      AllInPages(n, x.ml, x.errMin, x.errMax, max, xs)
  }

  ghost predicate Harmless(n: Pos, x: Training) {
    Arises(n, x) ==> ReachesAll(x.ss[|x.ops|], n, x)
  }

  function Zero(k: Key): real { 0.0 }

  /** A model that always predicts zero, with wide bounds, reaches the samples of
      the small tree. */
  lemma SmallReached(n: nat, max: int)
    requires 2 <= n <= 3
    ensures Monotone(Zero, SmallFeed(n)) && AllReached(SamePage(n), Zero, max, 0, 100, SmallFeed(n))
  {
    var xs := SmallFeed(n);
    forall i | 0 <= i < |xs| ensures Hit(SamePage(n), Zero, max, 0, 100, xs[i]) {
      PageMonotone(n, 0, xs[i].mark);
      PageMonotone(n, xs[i].mark, 100);
    }
  }

  lemma StepTwoFails(n: nat, a: Leaf, b: Leaf, c: Leaf, d: Leaf) returns (x: Training)
    requires a != b && b != c && a != c && d != a && d != b && d != c && 2 <= n <= 3
    ensures !Harmless(n, x)
  {
    var xs := SmallFeed(n);
    var ss, ops := StepTwoLoses(n, a, b, c, d, Zero, 0, 100);
    SmallKept(n);
    SmallReached(n, n + 1);
    x := Training(ss, ops, Divider(SmallHi(n)), 2, 1, 0, Range(20, SmallHi(n), true), SamePage(n), Zero, 0, 100);
    assert !InPages(n, Zero, 0, 100, n + 1, xs[3]);
  }

  /** Page ends thinned out by steps of two reach every key of every trainer on
      every tree that inserts can build exactly when leaves have at least four
      slots. */
  lemma StepTwoExact(n: nat, a: Leaf, b: Leaf, c: Leaf, d: Leaf)
    requires n >= 2 && a != b && b != c && a != c && d != a && d != b && d != c
    ensures n >= 4 <==> forall x {:trigger Harmless(n, x)} :: Harmless(n, x)
  {
    if n >= 4 {
      forall x ensures Harmless(n, x) {
        if Arises(n, x) {
          StepTwoReaches(x.ss[|x.ops|], n, x);
        }
      }
    } else {
      var x := StepTwoFails(n, a, b, c, d);
    }
  }

  lemma StepTwoReaches(s: State, n: Pos, x: Training)
    requires n >= 4 && WellFormed(s, n) && s.root.Some?
    ensures ReachesAll(s, n, x)
  {
    var ends := Kept(PageEnds(n), FeedOf(s, n, x.r.lo, x.r.hi));
    var max := CapOf(Kept(EveryStep(2), ends));
    if PageWise(x.f, n) && Monotone(x.ml, FeedOf(s, n, x.r.lo, x.r.hi)) &&
       AllReached(x.f, x.ml, max, x.errMin, x.errMax, ends) {
      SampledStepTwo(s, n, x.r.lo, x.r.hi, x.f, x.ml, x.errMin, x.errMax);
    }
  }
}
