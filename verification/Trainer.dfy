/** The trainer of one second-layer model (submodel_trainer.hh): the key range
    it collects, the samples it reads from the tree, and what its model then
    reaches. */
module Trainer {
  import opened Keys
  import opened Sorting
  import opened XNode
  import opened BTree
  import opened LeafChain
  import opened Store
  import opened TreeInner
  import opened XTree
  import opened TreeIter
  import opened TTIter
  import opened Samplers
  import opened SubModel
  import opened Reach

  // ---------- the samples of a walk ----------

  /** The items up to the first key beyond e. */
  function Upto(items: seq<Item>, e: Key): seq<Item> {
    if items == [] || items[0].key > e then [] else [items[0]] + Upto(items[1..], e)
  }

  function Samples(n: nat, start: nat, items: seq<Item>): (r: seq<Sample>)
    requires forall i :: 0 <= i < |items| ==> start <= items[i].page
    ensures |r| == |items|
    ensures forall i :: 0 <= i < |items| ==> r[i] == Sample(items[i].key, LabelOf(n, start, items[i]))
  {
    seq(|items|, i requires 0 <= i < |items| => Sample(items[i].key, LabelOf(n, start, items[i])))
  }

  /** No item lies before page start. */
  ghost predicate FromPage(items: seq<Item>, start: nat) {
    forall i :: 0 <= i < |items| ==> start <= items[i].page
  }

  lemma {:induction false} UptoPrefix(items: seq<Item>, e: Key) returns (m: nat)
    ensures m <= |items| && Upto(items, e) == items[..m]
    ensures forall i :: 0 <= i < m ==> items[i].key <= e
    ensures m < |items| ==> items[m].key > e
  {
    if items == [] || items[0].key > e {
      m := 0;
    } else {
      var r := UptoPrefix(items[1..], e);
      m := r + 1;
      assert items[..m] == [items[0]] + items[1..][..r];
      forall i | 0 <= i < m ensures items[i].key <= e {
        if i > 0 {
          assert items[i] == items[1..][i - 1];
        }
      }
    }
  }

  lemma {:induction false} UptoAll(items: seq<Item>, e: Key)
    requires forall i :: 0 <= i < |items| ==> items[i].key <= e
    ensures Upto(items, e) == items
  {
    if items != [] {
      UptoAll(items[1..], e);
    }
  }

  /** What a trainer with keys lo to hi reads from the leaves: the walk that
      starts with a seek for lo, up to the first key beyond hi. */
  function Feed(tips: seq<Tip>, n: nat, start: nat, hi: Key): seq<Sample>
    requires start <= |tips|
  {
    UptoFrom(tips, start, hi);
    Samples(n, start, Upto(ItemsFrom(tips, true, start), hi))
  }

  lemma UptoFrom(tips: seq<Tip>, start: nat, hi: Key)
    requires start <= |tips|
    ensures FromPage(Upto(ItemsFrom(tips, true, start), hi), start)
  {
    var items := ItemsFrom(tips, true, start);
    ItemsOk(tips, true, start);
    var m := UptoPrefix(items, hi);
    forall i | 0 <= i < m ensures start <= items[i].page {
      assert items[i] in items;
    }
  }

  /** The samples' keys and labels rise. */
  lemma FeedRises(tips: seq<Tip>, n: nat, start: nat, hi: Key)
    requires PagesOk(tips, n) && Ascending(tips) && start <= |tips|
    ensures Ascends(Feed(tips, n, start, hi))
  {
    var items := ItemsFrom(tips, true, start);
    var m := UptoPrefix(items, hi);
    var xs := Feed(tips, n, start, hi);
    ItemsOk(tips, true, start);
    ItemsClimb(tips, n, true, start);
    forall i, j | 0 <= i < j < |xs| ensures xs[i].key < xs[j].key && xs[i].mark < xs[j].mark {
      assert items[i] in items && items[j] in items && Earlier(items[i], items[j]);
      LogicOrder(n, items[i].page - start, items[i].slot, items[j].page - start, items[j].slot);
    }
  }

  /** The item behind a sample. */
  lemma FeedItem(tips: seq<Tip>, n: nat, start: nat, hi: Key, i: nat) returns (x: Item)
    requires PagesOk(tips, n) && start <= |tips| && i < |Feed(tips, n, start, hi)|
    ensures ItemOf(x, tips, true, start) && x.slot < n
    ensures Feed(tips, n, start, hi)[i] == Sample(x.key, LabelOf(n, start, x))
  {
    var items := ItemsFrom(tips, true, start);
    var m := UptoPrefix(items, hi);
    ItemsOk(tips, true, start);
    assert items[i] in items;
    x := items[i];
  }

  /** A sample's label names the page that holds its key. */
  lemma FeedPage(tips: seq<Tip>, n: nat, start: nat, hi: Key, i: nat)
    requires n > 0 && PagesOk(tips, n) && start <= |tips| && i < |Feed(tips, n, start, hi)|
    ensures var x := Feed(tips, n, start, hi)[i];
      start + PageId(n, x.mark) < |tips| && x.key in KeySet(tips[start + PageId(n, x.mark)].page.keys)
  {
    var x := FeedItem(tips, n, start, hi, i);
    ItemKey(tips, true, start, x);
    LogicRoundTrip(n, x.page - start, x.slot);
  }

  /** Its offset is the rank of the key in that page. */
  lemma FeedOffset(tips: seq<Tip>, n: nat, start: nat, hi: Key, i: nat)
    requires n > 0 && PagesOk(tips, n) && start <= |tips| && i < |Feed(tips, n, start, hi)|
    ensures var x := Feed(tips, n, start, hi)[i];
      && start + PageId(n, x.mark) < |tips|
      && Offset(n, x.mark) == PositionIn(tips[start + PageId(n, x.mark)].page, x.key)
  {
    var x := FeedItem(tips, n, start, hi, i);
    LogicRoundTrip(n, x.page - start, x.slot);
    assert SlotOf(x, Arranged(tips[x.page].page.keys, true));
    assert PositionIn(tips[x.page].page, x.key) == x.slot by {
      RankIs(tips[x.page].page, n, x.slot);
    }
  }

  /** The rank of a key among those of its page. */
  function PositionIn(p: Page, k: Key): nat {
    First(Sort(p.keys), k)
  }

  lemma RankIs(p: Page, n: nat, slot: nat)
    requires p.Valid(n) && slot < n && Sort(p.keys)[slot] != INVALID
    ensures PositionIn(p, Sort(p.keys)[slot]) == slot
  {
    SortDistinct(p.keys);
    FirstOf(Sort(p.keys), slot);
  }

  /** Every stored key between lo and hi is among the samples of a walk that
      starts with a seek for lo. */
  lemma FeedComplete(s: State, n: nat, lo: Key, hi: Key, k: Key) returns (i: nat)
    requires WellFormed(s, n) && s.root.Some? && lo != INVALID && k in Pairs(s, n) && lo <= k <= hi
    ensures var start := LeafPos(s.root.value, n, s.depth, lo);
      && start < |StoreTips(s)| && i < |Feed(StoreTips(s), n, start, hi)|
          && Feed(StoreTips(s), n, start, hi)[i].key == k
  {
    var tips, start := StoreTips(s), LeafPos(s.root.value, n, s.depth, lo);
    SeekComplete(s, n, true, lo, k);
    StorePages(s, n);
    TipsAscend(s, n);
    i := KeyIndex(tips, n, start, hi, k);
  }

  lemma KeyIndex(tips: seq<Tip>, n: nat, start: nat, hi: Key, k: Key) returns (i: nat)
    requires PagesOk(tips, n) && Ascending(tips) && start <= |tips| && k <= hi
    requires k in KeysOf(ItemsFrom(tips, true, start))
    ensures i < |Feed(tips, n, start, hi)| && Feed(tips, n, start, hi)[i].key == k
  {
    var items := ItemsFrom(tips, true, start);
    var m := UptoPrefix(items, hi);
    ItemsClimb(tips, n, true, start);
    Beyond(items, m, hi);
    i :| 0 <= i < |items| && items[i].key == k;
  }

  lemma Beyond(items: seq<Item>, m: nat, hi: Key)
    requires Climbing(items) && (m < |items| ==> items[m].key > hi)
    ensures forall j :: m <= j < |items| ==> items[j].key > hi
  {}

  lemma UptoNext(items: seq<Item>, e: Key)
    requires items != [] && items[0].key <= e
    ensures Upto(items, e) == [items[0]] + Upto(items[1..], e)
  {}

  lemma SamplesConcat(n: nat, start: nat, a: seq<Item>, b: seq<Item>)
    requires FromPage(a, start) && FromPage(b, start)
    ensures FromPage(a + b, start)
    ensures Samples(n, start, a + b) == Samples(n, start, a) + Samples(n, start, b)
  {}

  /** The samples read so far, done, and those still to come. */
  ghost predicate Reading(feed: seq<Sample>, n: nat, start: nat, done: seq<Sample>, rest: seq<Item>, e: Key) {
    && FromPage(Upto(rest, e), start)
    && feed == done + Samples(n, start, Upto(rest, e))
  }

  lemma ReadOne(feed: seq<Sample>, n: nat, start: nat, done: seq<Sample>, rest: seq<Item>, e: Key)
    requires Reading(feed, n, start, done, rest, e) && rest != [] && rest[0].key <= e
    ensures start <= rest[0].page
    ensures Reading(feed, n, start, done + [Sample(rest[0].key, LabelOf(n, start, rest[0]))], rest[1..], e)
  {
    UptoNext(rest, e);
    var a, b := [rest[0]], Upto(rest[1..], e);
    assert Upto(rest, e)[0] == rest[0];
    forall i | 0 <= i < |b| ensures start <= b[i].page {
      assert b[i] == Upto(rest, e)[i + 1];
    }
    SamplesConcat(n, start, a, b);
  }

  /** Every sample's page has been seen. */
  ghost predicate Within(xs: seq<Sample>, n: Pos, pages: nat) {
    forall i :: 0 <= i < |xs| ==> PageId(n, xs[i].mark) < pages
  }

  /** Every label of the tree leaves room for an error of the same size. */
  ghost predicate LabelsFit(pages: nat, n: nat) {
    pages * n <= LABEL_MAX
  }

  lemma FeedSmall(tips: seq<Tip>, n: nat, start: nat, hi: Key)
    requires n > 0 && PagesOk(tips, n) && start <= |tips| && LabelsFit(|tips|, n)
    ensures Small(Feed(tips, n, start, hi), LABEL_MAX)
  {
    var xs := Feed(tips, n, start, hi);
    forall i | 0 <= i < |xs| ensures xs[i].mark <= LABEL_MAX {
      FeedPage(tips, n, start, hi, i);
      PageBounds(n, xs[i].mark);
      Scale(PageId(n, xs[i].mark) + 1, |tips|, n);
    }
  }

  lemma KeptSmall(kind: Kind, xs: seq<Sample>, limit: nat)
    requires Small(xs, limit)
    ensures Small(Kept(kind, xs), limit)
  {
    KeptFrom(kind, xs);
    var ys := Kept(kind, xs);
    forall i | 0 <= i < |ys| ensures ys[i].mark <= limit {
      assert ys[i] in xs;
    }
  }

  /** A walk for the keys lo to hi appended to the table the leaves from the one
      of lo on, including every leaf that a sample is on. */
  ghost predicate Walked(s: State, n: Pos, lo: Key, hi: Key, before: seq<nat>, after: seq<nat>, seen: nat) {
    && WellFormed(s, n) && s.root.Some?
    && var tips, start := StoreTips(s), LeafPos(s.root.value, n, s.depth, lo);
       && start <= seen <= |tips| && after == before + Run(tips, start, seen)
       && Within(Feed(tips, n, start, hi), n, seen - start)
  }

  /** What a trainer with keys lo to hi reads from the tree. */
  ghost function FeedOf(s: State, n: Pos, lo: Key, hi: Key): seq<Sample>
    requires WellFormed(s, n) && s.root.Some?
  {
    FindTipPos(s.root.value, n, s.depth, lo);
    Feed(StoreTips(s), n, LeafPos(s.root.value, n, s.depth, lo), hi)
  }

  lemma FeedAscends(s: State, n: Pos, lo: Key, hi: Key)
    requires WellFormed(s, n) && s.root.Some?
    ensures Ascends(FeedOf(s, n, lo, hi))
  {
    StorePages(s, n);
    TipsAscend(s, n);
    FindTipPos(s.root.value, n, s.depth, lo);
    FeedRises(StoreTips(s), n, LeafPos(s.root.value, n, s.depth, lo), hi);
  }

  lemma TrainSmall(s: State, n: Pos, lo: Key, hi: Key, kind: Kind)
    requires WellFormed(s, n) && s.root.Some? && LabelsFit(|StoreTips(s)|, n)
    ensures Small(Kept(kind, FeedOf(s, n, lo, hi)), LABEL_MAX)
  {
    StorePages(s, n);
    FindTipPos(s.root.value, n, s.depth, lo);
    FeedSmall(StoreTips(s), n, LeafPos(s.root.value, n, s.depth, lo), hi);
    KeptSmall(kind, FeedOf(s, n, lo, hi), LABEL_MAX);
  }

  /** What a training leaves in the model: the learned function and the cap come
      from the shrunken set; the bounds reach everything in the full one, and are no
      wider than its samples pull them. */
  ghost predicate Accurate(ml: Key -> real, lo: int, hi: int, max: int,
                       learn: seq<Sample> -> Key -> real, f: Updater, train: seq<Sample>, kept: seq<Sample>) {
    && ml == learn(kept) && max == CapOf(kept) && max <= LABEL_MAX
    && -LABEL_MAX <= lo <= 0 <= hi <= LABEL_MAX && AllReached(f, ml, max, lo, hi, train)
    && Tight(f, ml, max, 0, 0, lo, hi, train)
  }

  ghost predicate Fitted(m: XSubModel, learn: seq<Sample> -> Key -> real, f: Updater, train: seq<Sample>,
                         kept: seq<Sample>)
    reads m
  {
    Accurate(m.ml, m.errMin, m.errMax, m.max, learn, f, train, kept)
  }

  class XMLTrainer {
    var startKey: Key
    var endKey: Key
    var lWatermark: nat
    var hWatermark: nat
    var nkeysUpdate: nat

    constructor ()
      ensures startKey == INVALID && endKey == MIN_KEY && lWatermark == hWatermark == nkeysUpdate == 0
    {
      startKey, endKey := INVALID, MIN_KEY;
      lWatermark, hWatermark, nkeysUpdate := 0, 0, 0;
    }

    predicate NeedTrain()
      reads this
    {
      hWatermark > lWatermark
    }

    /** Note a key of the range; a trainer that is up to date needs training
        again. */
    method UpdateKey(k: Key)
      requires lWatermark <= hWatermark
      modifies this
      ensures startKey == Min(old(startKey), k) && endKey == Max(old(endKey), k)
      ensures nkeysUpdate == old(nkeysUpdate) + 1 && lWatermark == old(lWatermark) && NeedTrain()
      ensures hWatermark == if old(NeedTrain()) then old(hWatermark) else old(lWatermark) + 1
    {
      nkeysUpdate := nkeysUpdate + 1;
      startKey := Min(startKey, k);
      endKey := Max(endKey, k);
      if !NeedTrain() {
        hWatermark := hWatermark + 1;
      }
    }

    /** Read the samples from the tree, and keep what the sampler keeps of them.
        The table gets the leaves the walk has passed. */
    method SnapshotTrainLabels(iter: TTIter, kv: XTree, s: Sampler, ghost st: State)
      returns (train: seq<Sample>, ghost seen: nat)
      requires kv.Valid() && kv.root != Null && kv.n == iter.core.n > 0 && iter.core.sorted
      requires kv.state == st && WellFormed(st, kv.n) && st.root.Some?
      requires iter !in kv.repr && iter.core !in kv.repr && iter.tt !in kv.repr && s !in kv.repr
      requires Addressable(StoreTips(st)) && s.Valid([]) && s.fed == []
      modifies iter, iter.core, iter.tt, s
      ensures Walked(st, kv.n, startKey, endKey, old(iter.tt.entries), iter.tt.entries, seen)
      ensures train == Kept(s.kind, FeedOf(st, kv.n, startKey, endKey))
    {
      iter.Seek(startKey, kv, st);
      StartReading(iter, StoreTips(st), endKey);
      ghost var n, lo, before := kv.n, startKey, iter.base;
      train := Collect(iter, s, endKey, Feed(StoreTips(st), n, iter.start, endKey));
      seen := iter.Seen();
      HasWalked(iter, st, n, lo, endKey, before);
    }

    static lemma HasWalked(iter: TTIter, st: State, n: Pos, lo: Key, hi: Key, before: seq<nat>)
      requires WellFormed(st, n) && st.root.Some? && iter.Valid() && iter.core.tips == StoreTips(st)
      requires iter.start == LeafPos(st.root.value, n, st.depth, lo) && iter.base == before
      requires Within(Feed(StoreTips(st), n, iter.start, hi), n, iter.Seen() - iter.start)
      ensures Walked(st, n, lo, hi, before, iter.tt.entries, iter.Seen())
    {}

    /** Train a model on the keys of this trainer.  learn is the training
        algorithm: any function from training sets to predictions; untrained is
        what a model predicts that was never trained. */
    method TrainWithShrink(iter: TTIter, kv: XTree, s: Sampler, ss: Sampler, f: Updater,
                           learn: seq<Sample> -> Key -> real, untrained: Key -> real, ghost st: State)
      returns (model: XSubModel, ghost seen: nat)
      requires kv.Valid() && kv.root != Null && kv.n == iter.core.n > 0 && iter.core.sorted
      requires kv.state == st && WellFormed(st, kv.n) && st.root.Some?
      requires iter !in kv.repr && iter.core !in kv.repr && iter.tt !in kv.repr && s !in kv.repr && s != ss
      requires Addressable(StoreTips(st)) && LabelsFit(|StoreTips(st)|, kv.n)
      requires s.Valid([]) && s.fed == [] && ss.Valid([]) && ss.fed == []
      modifies iter, iter.core, iter.tt, s, ss, this`lWatermark
      ensures fresh(model) && lWatermark == old(lWatermark) + if old(NeedTrain()) then 1 else 0
      ensures old(NeedTrain()) ==>
        && Walked(st, kv.n, startKey, endKey, old(iter.tt.entries), iter.tt.entries, seen)
        && var train := Kept(s.kind, FeedOf(st, kv.n, startKey, endKey));
           Fitted(model, learn, f, train, Kept(ss.kind, train))
      ensures !old(NeedTrain()) ==>
        && iter.tt.entries == old(iter.tt.entries)
        && model.ml == untrained && model.max == model.errMin == model.errMax == 0
    {
      if !NeedTrain() {
        seen := 0;
        model := new XSubModel(untrained);
        return;
      }
      var train;
      train, seen := SnapshotTrainLabels(iter, kv, s, st);
      TrainSmall(st, kv.n, startKey, endKey, s.kind);
      model := Fit(train, ss, f, learn, untrained);
      lWatermark := lWatermark + 1;
    }

    static method Shrink(train: seq<Sample>, ss: Sampler) returns (kept: seq<Sample>)
      requires ss.Valid([]) && ss.fed == []
      modifies ss
      ensures kept == Kept(ss.kind, train)
    {
      var out: seq<Sample> := [];
      var i := 0;
      while i < |train|
        invariant i <= |train| && ss.Valid(out) && ss.fed == train[..i]
      {
        out := ss.AddTo(train[i], out);
        i := i + 1;
      }
      assert train[..i] == train;
      kept := ss.Finalize(out);
    }

    static method Fit(train: seq<Sample>, ss: Sampler, f: Updater, learn: seq<Sample> -> Key -> real,
                      untrained: Key -> real)
      returns (model: XSubModel)
      requires ss.Valid([]) && ss.fed == [] && Small(train, LABEL_MAX)
      modifies ss
      ensures fresh(model) && Fitted(model, learn, f, train, Kept(ss.kind, train))
    {
      var kept := Shrink(train, ss);
      KeptSmall(ss.kind, train, LABEL_MAX);
      model := new XSubModel(untrained);
      model.TrainMl(learn(kept), kept);
      model.CalError(train, f, LABEL_MAX);
    }

    static lemma StartReading(iter: TTIter, tips: seq<Tip>, eKey: Key)
      requires iter.Valid() && iter.core.tips == tips && iter.core.Rest() == ItemsFrom(tips, true, iter.start)
      ensures Reading(Feed(tips, iter.core.n, iter.start, eKey), iter.core.n, iter.start, [], iter.core.Rest(), eKey)
    {
      UptoFrom(tips, iter.start, eKey);
    }

    /** The state of the reading loop. */
    static ghost predicate Collecting(iter: TTIter, s: Sampler, eKey: Key, feed: seq<Sample>, out: seq<Sample>)
      reads iter, iter.core, iter.core.fp, iter.tt, s
    {
      && iter.Valid() && iter.core.n > 0 && s !in iter.core.fp && s.Valid(out)
      && Reading(feed, iter.core.n, iter.start, s.fed, iter.core.Rest(), eKey)
      && Within(s.fed, iter.core.n, iter.Seen() - iter.start)
    }

    static method Collect(iter: TTIter, s: Sampler, eKey: Key, ghost feed: seq<Sample>)
      returns (train: seq<Sample>)
      requires Collecting(iter, s, eKey, feed, [])
      modifies iter`prevNode, iter`logicPageId, iter.core, iter.tt, s
      ensures iter.Valid() && iter.core.tips == old(iter.core.tips)
      ensures s.fed == feed && train == Kept(s.kind, feed)
      ensures Within(feed, iter.core.n, iter.Seen() - iter.start)
    {
      var trainSet := CollectAll(iter, s, eKey, feed);
      Collected(iter, s, eKey, feed, trainSet);
      train := s.Finalize(trainSet);
    }

    static lemma Collected(iter: TTIter, s: Sampler, eKey: Key, feed: seq<Sample>, out: seq<Sample>)
      requires Collecting(iter, s, eKey, feed, out)
      requires !IsWanted(iter.core.Rest(), eKey)
      ensures s.fed == feed
    {
      assert Upto(iter.core.Rest(), eKey) == [];
    }

    static method CollectAll(iter: TTIter, s: Sampler, eKey: Key, ghost feed: seq<Sample>)
      returns (trainSet: seq<Sample>)
      requires Collecting(iter, s, eKey, feed, [])
      modifies iter`prevNode, iter`logicPageId, iter.core, iter.tt, s
      ensures Collecting(iter, s, eKey, feed, trainSet) && iter.core.tips == old(iter.core.tips)
      ensures !IsWanted(iter.core.Rest(), eKey)
    {
      trainSet := [];
      var more := Wanted(iter, eKey);
      while more
        invariant Collecting(iter, s, eKey, feed, trainSet)
        invariant iter.core.tips == old(iter.core.tips)
        invariant more == IsWanted(iter.core.Rest(), eKey)
        decreases |iter.core.Rest()|
      {
        trainSet, more := CollectOne(iter, s, eKey, feed, trainSet);
      }
    }

    /** The loop goes on while there is a key, and it is not beyond eKey. */
    static method Wanted(iter: TTIter, eKey: Key) returns (more: bool)
      requires iter.core.Valid()
      ensures more == IsWanted(iter.core.Rest(), eKey)
    {
      more := iter.core.HasNext();
      if more {
        var k := iter.core.CurKey();
        more := k <= eKey;
      }
    }

    static predicate IsWanted(rest: seq<Item>, eKey: Key) {
      rest != [] && rest[0].key <= eKey
    }

    static method CollectOne(iter: TTIter, s: Sampler, eKey: Key, ghost feed: seq<Sample>, set0: seq<Sample>)
      returns (set1: seq<Sample>, more: bool)
      requires Collecting(iter, s, eKey, feed, set0) && IsWanted(iter.core.Rest(), eKey)
      modifies iter`prevNode, iter`logicPageId, iter.core, iter.tt, s
      ensures Collecting(iter, s, eKey, feed, set1) && iter.core.tips == old(iter.core.tips)
      ensures |iter.core.Rest()| < |old(iter.core.Rest())|
      ensures more == IsWanted(iter.core.Rest(), eKey)
    {
      set1 := Sampled(iter, s, eKey, feed, set0);
      iter.Next();
      more := Wanted(iter, eKey);
    }

    static method Sampled(iter: TTIter, s: Sampler, eKey: Key, ghost feed: seq<Sample>, set0: seq<Sample>)
      returns (set1: seq<Sample>)
      requires Collecting(iter, s, eKey, feed, set0) && IsWanted(iter.core.Rest(), eKey)
      modifies s
      ensures s.Valid(set1) && iter.core.curNode.Some?
      ensures Reading(feed, iter.core.n, iter.start, s.fed, iter.core.Rest()[1..], eKey)
      ensures Within(s.fed, iter.core.n, iter.Seen() - iter.start)
    {
      ReadOne(feed, iter.core.n, iter.start, s.fed, iter.core.Rest(), eKey);
      var k := iter.core.CurKey();
      var mark := iter.OpaqueVal();
      set1 := s.AddTo(Sample(k, mark), set0);
    }
  }
}
