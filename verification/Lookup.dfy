/** The client's lookup (core_eval): predict a range of pages, fetch their keys
    in batches, search them, fetch the value; or ask the server when the range is
    too wide.  The main result is that it returns what the tree's get returns. */
module Lookup {
  import opened Keys
  import opened XNode
  import opened BTree
  import opened LeafChain
  import opened Store
  import opened TreeInner
  import opened XTree
  import opened TTIter
  import opened Samplers
  import opened SubModel
  import opened Reach
  import opened Trainer
  import opened Rmi
  import opened Server
  import opened BatchOps

  const MAX_PAGES := 200
  const BATCH := 16

  // The YCSB client's batch, and the most pages it fetches.
  const YCSB_BATCH := 10

  // ---------- the prediction holds the leaf ----------

  /** Entry t of a table is the leaf at position i. */
  ghost predicate EntryOf(table: seq<nat>, t: nat, tips: seq<Tip>, i: nat) {
    t < |table| && i < |tips| && table[t] == Entry(tips[i].leaf.addr, tips[i].page.incar)
  }

  /** Page t is among those of the range predicted for k. */
  ghost predicate Predicted(n: Pos, sub: Sub, k: Key, t: nat) {
    var (s, e) := PredictRange(sub.ml, sub.errMin, sub.errMax, sub.max, k);
    e >= 0 && PageId(n, s) <= t <= PageId(n, e)
  }

  /** For every key in its range, a trained model predicts the leaf. */
  lemma PredictedLeaf(s: State, n: Pos, r: Range, sub: Sub, table: seq<nat>, k: Key) returns (t: nat, i: nat)
    requires Trained(s, n, r, sub, table) && WellFormed(s, n) && s.root.Some?
    requires r.need && r.lo != INVALID && k in Pairs(s, n) && r.lo <= k <= r.hi
    ensures EntryOf(table, t, StoreTips(s), i) && k in KeySet(StoreTips(s)[i].page.keys) && Predicted(n, sub, k, t)
  {
    var x;
    x, i := SampledLeaf(s, n, r, k);
    t := SampleServed(s, n, r, sub, table, x);
  }

  /** The sample of a key, and the leaf that its label names. */
  lemma SampledLeaf(s: State, n: Pos, r: Range, k: Key) returns (x: Sample, i: nat)
    requires WellFormed(s, n) && s.root.Some? && r.lo != INVALID && k in Pairs(s, n) && r.lo <= k <= r.hi
    ensures x in FeedOf(s, n, r.lo, r.hi) && x.key == k
    ensures i == LeafPos(s.root.value, n, s.depth, r.lo) + PageId(n, x.mark) < |StoreTips(s)|
    ensures k in KeySet(StoreTips(s)[i].page.keys)
  {
    var tips, start := StoreTips(s), LeafPos(s.root.value, n, s.depth, r.lo);
    var j := FeedComplete(s, n, r.lo, r.hi, k);
    StorePages(s, n);
    FeedPage(tips, n, start, r.hi, j);
    x := FeedOf(s, n, r.lo, r.hi)[j];
    i := start + PageId(n, x.mark);
  }

  /** Both at once. */
  lemma SampleServed(s: State, n: Pos, r: Range, sub: Sub, table: seq<nat>, x: Sample) returns (t: nat)
    requires Trained(s, n, r, sub, table) && r.need && x in FeedOf(s, n, r.lo, r.hi)
    ensures t == PageId(n, x.mark)
    ensures EntryOf(table, t, StoreTips(s), LeafPos(s.root.value, n, s.depth, r.lo) + t)
    ensures Predicted(n, sub, x.key, t)
  {
    t := PageId(n, x.mark);
    TableHolds(s, n, r, sub, table, x);
    SamplePredicted(s, n, r, sub, table, x);
  }

  lemma TableHolds(s: State, n: Pos, r: Range, sub: Sub, table: seq<nat>, x: Sample)
    requires Trained(s, n, r, sub, table) && r.need && x in FeedOf(s, n, r.lo, r.hi)
    ensures EntryOf(table, PageId(n, x.mark), StoreTips(s), LeafPos(s.root.value, n, s.depth, r.lo) + PageId(n, x.mark))
  {
    var seen :| Walked(s, n, r.lo, r.hi, [], table, seen);
    var tips, start := StoreTips(s), LeafPos(s.root.value, n, s.depth, r.lo);
    WalkedPage(s, n, r.lo, r.hi, table, seen, x);
    RunEntry(tips, start, seen, table, PageId(n, x.mark));
  }

  lemma WalkedPage(s: State, n: Pos, lo: Key, hi: Key, table: seq<nat>, seen: nat, x: Sample)
    requires Walked(s, n, lo, hi, [], table, seen) && x in FeedOf(s, n, lo, hi)
    ensures PageId(n, x.mark) < |table|
  {
    var j :| 0 <= j < |FeedOf(s, n, lo, hi)| && FeedOf(s, n, lo, hi)[j] == x;
  }

  lemma SamplePredicted(s: State, n: Pos, r: Range, sub: Sub, table: seq<nat>, x: Sample)
    requires Trained(s, n, r, sub, table) && r.need && x in FeedOf(s, n, r.lo, r.hi)
    ensures Predicted(n, sub, x.key, PageId(n, x.mark))
  {
    var feed := FeedOf(s, n, r.lo, r.hi);
    var j :| 0 <= j < |feed| && feed[j] == x;
    assert InPages(n, sub.ml, sub.errMin, sub.errMax, sub.max, feed[j]);
  }

  lemma RunEntry(tips: seq<Tip>, start: nat, seen: nat, table: seq<nat>, t: nat)
    requires start <= seen <= |tips| && table == [] + Run(tips, start, seen) && t < |table|
    ensures EntryOf(table, t, tips, start + t)
  {}

  lemma TrainedTable(s: State, n: Pos, r: Range, sub: Sub, table: seq<nat>) returns (start: nat, seen: nat)
    requires Trained(s, n, r, sub, table) && table != []
    ensures start <= seen <= |StoreTips(s)| && table == [] + Run(StoreTips(s), start, seen)
  {
    assert TrainedOn(s, n, r, sub, table);
    seen :| Walked(s, n, r.lo, r.hi, [], table, seen);
    start := LeafPos(s.root.value, n, s.depth, r.lo);
  }

  /** Every entry of a table is some leaf of the tree. */
  lemma TableEntry(s: State, n: Pos, r: Range, sub: Sub, table: seq<nat>, t: nat) returns (i: nat)
    requires Trained(s, n, r, sub, table) && t < |table|
    ensures EntryOf(table, t, StoreTips(s), i)
  {
    var start, seen := TrainedTable(s, n, r, sub, table);
    RunEntry(StoreTips(s), start, seen, table, t);
    i := start + t;
  }

  // ---------- fetching the pages ----------

  /** Every entry of the table is the address of a page in the remote memory. */
  ghost predicate Fetchable(table: seq<nat>, mem: Memory, n: nat) {
    forall t {:trigger table[t]} :: 0 <= t < |table| ==> AddrOf(table[t]) in mem && mem[AddrOf(table[t])].Valid(n)
  }

  /** ops read the pages of table entries from on into the slots from base on. */
  ghost predicate Reading(ops: seq<Op>, table: seq<nat>, from: nat, base: nat) {
    && from + |ops| <= |table|
    && forall j {:trigger ops[j]} :: 0 <= j < |ops| ==>
        ops[j].addr == AddrOf(table[from + j]) && ops[j].slot == base + j
  }

  /** Slots base on hold the keys of the pages of table entries from to upto. */
  ghost predicate Fetched(buf: seq<seq<Key>>, table: seq<nat>, mem: Memory, from: nat, upto: nat) {
    && from <= upto <= |table| && upto - from <= |buf|
    && forall q {:trigger table[q]} :: from <= q < upto ==>
        AddrOf(table[q]) in mem && buf[q - from] == mem[AddrOf(table[q])].keys
  }

  lemma ReadingOk(ops: seq<Op>, table: seq<nat>, mem: Memory, n: nat, from: nat, base: nat, size: nat)
    requires Reading(ops, table, from, base) && Fetchable(table, mem, n) && base + |ops| <= size
    ensures forall o :: o in ops ==> o.addr in mem && o.slot < size
  {
    forall o | o in ops ensures o.addr in mem && o.slot < size {
      var j :| 0 <= j < |ops| && ops[j] == o;
      assert AddrOf(table[from + j]) in mem;
    }
  }

  /** Reads into consecutive slots. */
  lemma {:induction false} ReadsFetch(buf: seq<seq<Key>>, ops: seq<Op>, table: seq<nat>, mem: Memory, ns: nat, p: nat)
    requires Fetched(buf, table, mem, ns, p) && Reading(ops, table, p, p - ns) && p - ns + |ops| <= |buf|
    requires forall o :: o in ops ==> o.addr in mem && o.slot < |buf|
    ensures Fetched(Reads(mem, buf, ops), table, mem, ns, p + |ops|)
    decreases |ops|
  {
    if ops != [] {
      assert ops[0] in ops && ops[0].addr == AddrOf(table[p + 0]);
      var buf' := buf[ops[0].slot := mem[ops[0].addr].keys];
      forall q | ns <= q < p + 1 ensures AddrOf(table[q]) in mem && buf'[q - ns] == mem[AddrOf(table[q])].keys {}
      forall j | 0 <= j < |ops[1..]|
        ensures ops[1..][j].addr == AddrOf(table[p + 1 + j]) && ops[1..][j].slot == p + 1 - ns + j
      {
        assert ops[1..][j] == ops[j + 1];
      }
      ReadsFetch(buf', ops[1..], table, mem, ns, p + 1);
    }
  }

  /** Fetch the keys of pages ns to ne, a batch of 16 at a time; rings counts the
      doorbells. */
  method FetchPages(table: seq<nat>, mem: Memory, n: nat, ns: nat, ne: nat, buf: array<seq<Key>>)
    returns (ghost rings: nat)
    requires Fetchable(table, mem, n) && ne < |table| && ns <= ne + 1 && ne + 1 - ns <= buf.Length
    modifies buf
    ensures Fetched(buf[..], table, mem, ns, ne + 1) && rings == (ne + 1 - ns + 15) / 16
  {
    rings := 0;
    var reqs := new BatchOp(BATCH);
    var current: nat := 0;
    var p := ns;
    while p <= ne
      invariant Batching(reqs, current, table, mem, ns, p, buf) && p <= ne + 1 && current < BATCH
      invariant fresh(reqs) && fresh(reqs.ops) && 16 * rings + current == p - ns
    {
      ghost var rang;
      current, rang := FetchOne(reqs, current, table, mem, n, ns, p, buf);
      rings := rings + rang;
      p := p + 1;
    }
    if current > 0 {
      Flush(reqs, current, table, mem, n, ns, p, buf);
      rings := rings + 1;
    }
  }

  /** The pages before p are fetched but for the last current ones, which are in
      the batch. */
  ghost predicate Batching(reqs: BatchOp, current: nat, table: seq<nat>, mem: Memory, ns: nat, p: nat,
                           buf: array<seq<Key>>)
    reads reqs, reqs.ops, buf
  {
    && reqs.Valid() && reqs.curIdx + 1 == current && ns + current <= p <= |table|
    && Fetched(buf[..], table, mem, ns, p - current)
    && Reading(reqs.Pending(), table, p - current, p - current - ns)
  }

  method FetchOne(reqs: BatchOp, cur0: nat, table: seq<nat>, mem: Memory, n: nat, ns: nat, p: nat, buf: array<seq<Key>>)
    returns (current: nat, ghost rang: nat)
    requires Batching(reqs, cur0, table, mem, ns, p, buf) && cur0 < BATCH == reqs.n && Fetchable(table, mem, n)
    requires p < |table| && p - ns < buf.Length
    modifies reqs, reqs.ops, buf
    ensures Batching(reqs, current, table, mem, ns, p + 1, buf) && current < BATCH
    ensures 16 * rang + current == cur0 + 1
  {
    rang := 0;
    Queue(reqs, cur0, table, mem, ns, p, buf);
    current := cur0 + 1;
    if current == BATCH {
      Flush(reqs, current, table, mem, n, ns, p + 1, buf);
      current, rang := 0, 1;
    }
  }

  method Queue(reqs: BatchOp, current: nat, table: seq<nat>, mem: Memory, ns: nat, p: nat, buf: array<seq<Key>>)
    requires Batching(reqs, current, table, mem, ns, p, buf) && current < reqs.n && p < |table|
    modifies reqs, reqs.ops
    ensures Batching(reqs, current + 1, table, mem, ns, p + 1, buf)
  {
    ghost var ops := reqs.Pending();
    reqs.Emplace(AddrOf(table[p]), p - ns);
    QueueMore(ops, table, p - current, p - current - ns, reqs.Pending());
  }

  lemma QueueMore(ops: seq<Op>, table: seq<nat>, from: nat, base: nat, more: seq<Op>)
    requires Reading(ops, table, from, base) && from + |ops| < |table|
    requires |more| == |ops| + 1 && more[..|ops|] == ops
    requires more[|ops|].addr == AddrOf(table[from + |ops|]) && more[|ops|].slot == base + |ops|
    ensures Reading(more, table, from, base)
  {
    forall j | 0 <= j < |more| ensures more[j].addr == AddrOf(table[from + j]) && more[j].slot == base + j {
      assert j < |ops| ==> more[j] == ops[j];
    }
  }

  method Flush(reqs: BatchOp, current: nat, table: seq<nat>, mem: Memory, n: nat, ns: nat, p: nat, buf: array<seq<Key>>)
    requires Batching(reqs, current, table, mem, ns, p, buf) && Fetchable(table, mem, n) && p - ns <= buf.Length
    modifies reqs, reqs.ops, buf
    ensures Batching(reqs, 0, table, mem, ns, p, buf)
  {
    ReadingOk(reqs.Pending(), table, mem, n, p - current, p - current - ns, buf.Length);
    ReadsFetch(buf[..], reqs.Pending(), table, mem, ns, p - current);
    ghost var posted := reqs.ExecuteAsync(mem, buf);
  }

  /** Fetch the keys of pages ns to ne with one batch (the YCSB client). */
  method FetchAtOnce(table: seq<nat>, mem: Memory, n: nat, ns: nat, ne: int, buf: array<seq<Key>>)
    requires Fetchable(table, mem, n) && ns <= ne + 1 <= |table| && ne + 1 - ns <= YCSB_BATCH
    requires ne + 1 - ns <= buf.Length
    modifies buf
    ensures Fetched(buf[..], table, mem, ns, ne + 1)
  {
    var reqs := new BatchOp(YCSB_BATCH);
    var p := ns;
    while p <= ne
      invariant ns <= p <= ne + 1 && Batching(reqs, p - ns, table, mem, ns, p, buf)
      invariant fresh(reqs) && fresh(reqs.ops)
    {
      Queue(reqs, p - ns, table, mem, ns, p, buf);
      p := p + 1;
    }
    Flush(reqs, p - ns, table, mem, n, ns, p, buf);
  }

  // ---------- searching them ----------

  /** Aborted stands for a failed assertion of the program. */
  datatype Outcome = Found(value: Value) | Aborted

  /** The fetched page of entry p holds k. */
  ghost predicate Holds(table: seq<nat>, mem: Memory, p: nat, k: Key)
    requires p < |table|
  {
    AddrOf(table[p]) in mem && k in mem[AddrOf(table[p])].keys
  }

  ghost predicate Yields(table: seq<nat>, mem: Memory, p: nat, k: Key, v: Value)
    requires p < |table|
  {
    var page := if AddrOf(table[p]) in mem then mem[AddrOf(table[p])] else Page([], [], 0, null);
    |page.keys| == |page.vals| && PageGet(page, k) == Some(v)
  }

  /** Search the fetched pages in order, then read the value from its leaf. */
  method SearchPages(table: seq<nat>, mem: Memory, n: nat, ns: nat, ne: int, buf: array<seq<Key>>, k: Key)
    returns (res: Outcome)
    requires Fetchable(table, mem, n) && ns <= ne + 1 <= |table| && Fetched(buf[..], table, mem, ns, ne + 1)
    ensures res.Found? ==> exists p :: ns <= p <= ne && Yields(table, mem, p, k, res.value)
    ensures res.Aborted? ==> forall p :: ns <= p <= ne ==> !Holds(table, mem, p, k)
  {
    var p := ns;
    while p <= ne
      invariant ns <= p <= ne + 1
      invariant forall q: nat :: ns <= q < p ==> !Holds(table, mem, q, k)
    {
      var addr := AddrOf(table[p]);
      assert mem[addr].Valid(n) && buf[..][p - ns] == mem[addr].keys;
      var idx := First(buf[p - ns], k);
      if idx < |buf[p - ns]| {
        assert Yields(table, mem, p, k, mem[addr].vals[idx]);
        return Found(mem[addr].vals[idx]);
      }
      p := p + 1;
    }
    return Aborted;
  }

  // ---------- the lookup ----------

  /** The remote memory holds the leaves of the tree at their addresses. */
  ghost predicate Mirrors(mem: Memory, tips: seq<Tip>) {
    forall i {:trigger tips[i]} :: 0 <= i < |tips| ==>
      tips[i].leaf.addr in mem && mem[tips[i].leaf.addr] == tips[i].page
  }

  /** An entry of a leaf leads to its page. */
  lemma EntryLeads(table: seq<nat>, t: nat, tips: seq<Tip>, i: nat, mem: Memory)
    requires EntryOf(table, t, tips, i) && Mirrors(mem, tips) && Addressable(tips)
    ensures AddrOf(table[t]) == tips[i].leaf.addr
    ensures AddrOf(table[t]) in mem && mem[AddrOf(table[t])] == tips[i].page
  {
    assert Fits(tips[i].leaf.addr);
    EntryRoundTrip(tips[i].leaf.addr, tips[i].page.incar);
  }

  lemma TableFetchable(s: State, n: Pos, r: Range, sub: Sub, table: seq<nat>, mem: Memory)
    requires Trained(s, n, r, sub, table) && Mirrors(mem, StoreTips(s)) && Addressable(StoreTips(s))
    ensures Fetchable(table, mem, n)
  {
    StorePages(s, n);
    forall t | 0 <= t < |table| ensures AddrOf(table[t]) in mem && mem[AddrOf(table[t])].Valid(n) {
      var i := TableEntry(s, n, r, sub, table, t);
      EntryLeads(table, t, StoreTips(s), i, mem);
    }
  }

  /** What a leaf's page gives for a key it holds is the stored value. */
  lemma PageGetStored(s: State, n: Pos, i: nat, k: Key, v: Value)
    requires WellFormed(s, n) && s.root.Some? && i < |StoreTips(s)| && k != INVALID
    requires |StoreTips(s)[i].page.keys| == |StoreTips(s)[i].page.vals| && PageGet(StoreTips(s)[i].page, k) == Some(v)
    ensures k in Pairs(s, n) && Pairs(s, n)[k] == v
  {
    var tips := StoreTips(s);
    StorePages(s, n);
    FindSplits(s.root.value, n, s.depth, MIN_KEY, INVALID, k);
    HolderHas(tips, n, LeafPos(s.root.value, n, s.depth, k), i, k, v);
  }

  lemma HolderHas(tips: seq<Tip>, n: Pos, pos: nat, i: nat, k: Key, v: Value)
    requires PagesOk(tips, n) && SplitsAt(tips, pos, k) && i < |tips| && k != INVALID
    requires |tips[i].page.keys| == |tips[i].page.vals| && PageGet(tips[i].page, k) == Some(v)
    ensures k in Contents(tips, n) && Contents(tips, n)[k] == v
  {
    PageGetEntries(tips[i].page, n, k);
    assert k in KeySet(tips[i].page.keys) && i == pos;
    SplitContents(tips, n, pos, k);
  }

  /** Searching pages ns to ne never yields a wrong value, and yields one when
      the predicted page of a stored key is among them. */
  lemma SearchRight(s: State, n: Pos, r: Range, sub: Sub, table: seq<nat>, mem: Memory, k: Key, p: nat, v: Value)
    requires Trained(s, n, r, sub, table) && Mirrors(mem, StoreTips(s)) && Addressable(StoreTips(s))
    requires p < |table| && Yields(table, mem, p, k, v) && k != INVALID
    ensures k in Pairs(s, n) && Pairs(s, n)[k] == v
  {
    var i := TableEntry(s, n, r, sub, table, p);
    EntryLeads(table, p, StoreTips(s), i, mem);
    PageGetStored(s, n, i, k, v);
  }

  /** The predicted page of a key is within the pages that are searched. */
  lemma LeafSearched(s: State, n: Pos, r: Range, sub: Sub, table: seq<nat>, mem: Memory, k: Key) returns (t: nat)
    requires Trained(s, n, r, sub, table) && Mirrors(mem, StoreTips(s)) && Addressable(StoreTips(s))
    requires r.need && r.lo != INVALID && k in Pairs(s, n) && r.lo <= k <= r.hi
    ensures t < |table| && Holds(table, mem, t, k) && Predicted(n, sub, k, t)
  {
    var i;
    t, i := PredictedLeaf(s, n, r, sub, table, k);
    EntryLeads(table, t, StoreTips(s), i, mem);
  }

  /** What a lookup must return. */
  ghost function Expected(s: State, n: Pos, k: Key): Outcome
    requires WellFormed(s, n)
  {
    if k in Pairs(s, n) then Found(Pairs(s, n)[k]) else Aborted
  }

  /** The server answers with the tree's get, and asserts that there is a value. */
  method EvalWithRpc(kv: XTree, k: Key, ghost s: State) returns (res: Outcome)
    requires kv.Valid() && kv.root != Null && kv.state == s && WellFormed(s, kv.n) && kv.n > 0 && k != INVALID
    ensures res == Expected(s, kv.n, k)
  {
    var v := kv.Get(k);
    res := if v.Some? then Found(v.value) else Aborted;
  }

  /** The range of pages that the client searches, if it is not too wide. */
  ghost predicate Narrow(n: Pos, sub: Sub, table: seq<nat>, k: Key, ns: nat, ne: nat) {
    var (s, e) := PredictRange(sub.ml, sub.errMin, sub.errMax, sub.max, k);
    && e >= 0 && table != [] && ns == PageId(n, s) && ne == Min(|table| - 1, PageId(n, e))
    && ns <= ne + 1
  }

  /** Fetching and searching the range gives what a lookup must return. */
  lemma PagesRight(s: State, n: Pos, sel: Key -> nat, m: nat, r: Range, sub: Sub, table: seq<nat>, mem: Memory, k: Key,
                   ns: nat, ne: nat, res: Outcome)
    requires Served(s, n, sel, m, r, sub, table) && sel(k) == m && k != INVALID
    requires Mirrors(mem, StoreTips(s)) && Addressable(StoreTips(s)) && Narrow(n, sub, table, k, ns, ne)
    requires res.Found? ==> exists p :: ns <= p <= ne && Yields(table, mem, p, k, res.value)
    requires res.Aborted? ==> forall p :: ns <= p <= ne ==> !Holds(table, mem, p, k)
    ensures res == Expected(s, n, k)
  {
    if k in Pairs(s, n) {
      StoredRange(s, n, sel, m, r, k);
      var t := LeafSearched(s, n, r, sub, table, mem, k);
    }
    if res.Found? {
      var p :| ns <= p <= ne && Yields(table, mem, p, k, res.value);
      SearchRight(s, n, r, sub, table, mem, k, p, res.value);
    }
  }

  /** The range of the trainer that a stored key was dispatched to. */
  lemma StoredRange(s: State, n: Pos, sel: Key -> nat, m: nat, r: Range, k: Key)
    requires WellFormed(s, n) && Ranged(r, Pairs(s, n).Keys, sel, m) && sel(k) == m && k in Pairs(s, n)
    ensures r.need && r.lo != INVALID && r.lo <= k <= r.hi
  {
    StoredValid(s, n, r.lo);
  }

  lemma StoredValid(s: State, n: Pos, k: Key)
    requires WellFormed(s, n) && k in Pairs(s, n)
    ensures k != INVALID
  {
    StorePages(s, n);
    ContentsMember(StoreTips(s), n, k);
  }

  /** How many pages lie between the ends of the predicted range, cut to the
      table. */
  ghost function PagesWanted(n: Pos, sub: Sub, table: seq<nat>, k: Key): int {
    var (s, e) := PredictRange(sub.ml, sub.errMin, sub.errMax, sub.max, k);
    Min(|table| - 1, e / n) - s / n + 1
  }

  /** The client searched those pages itself, and has their keys in its buffer. */
  ghost predicate Searched(n: Pos, sub: Sub, table: seq<nat>, k: Key, mem: Memory, buf: seq<seq<Key>>) {
    var (s, _) := PredictRange(sub.ml, sub.errMin, sub.errMax, sub.max, k);
    0 <= PagesWanted(n, sub, table, k) && Fetched(buf, table, mem, s / n, s / n + PagesWanted(n, sub, table, k))
  }

  /** The errors bound the pages: if they are w pages apart, a client wants one
      page more at most, and at least the one that holds the key. */
  lemma FewPages(s: State, n: Pos, sel: Key -> nat, m: nat, r: Range, sub: Sub, table: seq<nat>, k: Key, w: nat)
    requires Served(s, n, sel, m, r, sub, table) && sel(k) == m && k in Pairs(s, n)
    requires sub.errMax - sub.errMin <= w * n
    ensures 1 <= PagesWanted(n, sub, table, k) <= w + 1
  {
    StoredRange(s, n, sel, m, r, k);
    var t, i := PredictedLeaf(s, n, r, sub, table, k);
    var (a, e) := PredictRange(sub.ml, sub.errMin, sub.errMax, sub.max, k);
    PagesApart(n, a, e, w);
  }

  lemma PagesApart(n: Pos, a: nat, e: nat, w: nat)
    requires e <= a + w * n
    ensures e / n <= a / n + w
  {
    PageAtLeast(n, a, a / n);
    PageAtLeast(n, e, a / n + w);
    assert (a / n + w) * n == (a / n) * n + w * n;
  }

  /** A client whose model has been trained on a function that predicts every label
      exactly searches one page or two, and never asks the server. */
  lemma ExactNeverAsks(learn: seq<Sample> -> Key -> real, s: State, n: Pos, sel: Key -> nat, m: nat, r: Range, sub: Sub,
                       table: seq<nat>, k: Key)
    requires Served(s, n, sel, m, r, sub, table) && sel(k) == m && k in Pairs(s, n) && s.root.Some?
    requires TrainedBy(DataDist, learn, s, n, r, sub)
    requires forall x :: x in FeedOf(s, n, r.lo, r.hi) ==> sub.ml(x.key) == x.mark as real
    ensures 1 <= PagesWanted(n, sub, table, k) <= 2
  {
    ExactLeaves(learn, s, n, r, sub);
    FewPages(s, n, sel, m, r, sub, table, k, 1);
  }

  /** The page branch, for a range that fits into the buffer. */
  method EvalPages(n: Pos, ghost sub: Sub, table: seq<nat>, mem: Memory, buf: array<seq<Key>>, k: Key, ns: nat, ne: nat,
                   ghost s: State, ghost sel: Key -> nat, ghost m: nat, ghost r: Range)
    returns (res: Outcome)
    requires Served(s, n, sel, m, r, sub, table) && sel(k) == m && k != INVALID
    requires Mirrors(mem, StoreTips(s)) && Addressable(StoreTips(s)) && Narrow(n, sub, table, k, ns, ne)
    requires ne + 1 - ns <= buf.Length
    modifies buf
    ensures res == Expected(s, n, k) && Fetched(buf[..], table, mem, ns, ne + 1)
  {
    TableFetchable(s, n, r, sub, table, mem);
    ghost var rings := FetchPages(table, mem, n, ns, ne, buf);
    res := SearchPages(table, mem, n, ns, ne, buf, k);
    PagesRight(s, n, sel, m, r, sub, table, mem, k, ns, ne, res);
  }

  /** A stored key's model has been trained, so its table is not empty. */
  lemma TableThere(s: State, n: Pos, sel: Key -> nat, m: nat, r: Range, sub: Sub, table: seq<nat>, k: Key)
    requires Served(s, n, sel, m, r, sub, table) && sel(k) == m && k in Pairs(s, n)
    ensures table != []
  {
    StoredRange(s, n, sel, m, r, k);
    var t, i := PredictedLeaf(s, n, r, sub, table, k);
  }

  /** The lookup returns exactly what the tree's get returns: the value of every
      stored key, whatever the models predict, and for any other key nothing.  It
      asks the server only if there are more than 200 pages to search. */
  method CoreEval(kv: XTree, first: Key -> real, num: nat, upBound: nat, models: seq<XSubModel>, tts: seq<seq<nat>>,
                  mem: Memory, buf: array<seq<Key>>, k: Key,
                  ghost s: State, ghost subs: seq<Sub>, ghost ranges: seq<Range>)
    returns (res: Outcome, asked: bool)
    requires kv.Valid() && kv.root != Null && kv.state == s && WellFormed(s, kv.n) && kv.n > 0 && k != INVALID
    requires num > 0 && |models| == |subs| == num && forall i :: 0 <= i < num ==> SubOf(models[i]) == subs[i]
    requires Built(s, kv.n, Selector(first, num, upBound), ranges, subs, tts)
    requires Mirrors(mem, StoreTips(s)) && Addressable(StoreTips(s)) && buf.Length >= MAX_PAGES
    modifies buf
    ensures res == Expected(s, kv.n, k)
    ensures var m := Select(first, num, upBound, k);
      && (asked <==> tts[m] != [] && !(0 <= PagesWanted(kv.n, subs[m], tts[m], k) <= 200))
      && (!asked && tts[m] != [] ==> Searched(kv.n, subs[m], tts[m], k, mem, buf[..]))
  {
    var m := SelectSecModel(first, num, upBound, |models|, k);
    ghost var sel := Selector(first, num, upBound);
    assert Served(s, kv.n, sel, m, ranges[m], subs[m], tts[m]);
    res, asked := EvalModel(kv, models[m], tts[m], mem, buf, k, s, sel, m, ranges[m], subs[m]);
  }

  method EvalModel(kv: XTree, model: XSubModel, table: seq<nat>, mem: Memory, buf: array<seq<Key>>, k: Key,
                   ghost s: State, ghost sel: Key -> nat, ghost m: nat, ghost r: Range, ghost sub: Sub)
    returns (res: Outcome, asked: bool)
    requires kv.Valid() && kv.root != Null && kv.state == s && WellFormed(s, kv.n) && kv.n > 0 && k != INVALID
    requires Served(s, kv.n, sel, m, r, sub, table) && sel(k) == m && SubOf(model) == sub
    requires Mirrors(mem, StoreTips(s)) && Addressable(StoreTips(s)) && buf.Length >= MAX_PAGES
    modifies buf
    ensures res == Expected(s, kv.n, k)
    ensures asked <==> table != [] && !(0 <= PagesWanted(kv.n, sub, table, k) <= 200)
    ensures !asked && table != [] ==> Searched(kv.n, sub, table, k, mem, buf[..])
  {
    var n: Pos := kv.n;
    var start, end := model.GetPredictRange(k);
    var ns := PageId(n, start);
    if table == [] {
      NotStored(s, n, sel, m, r, sub, table, k);
      return Aborted, false;
    }
    var ne := Min(|table| - 1, PageId(n, end));
    // the program compares as unsigned: a negative count is too large as well
    var count := ne - ns + 1;
    if count < 0 || count > MAX_PAGES {
      asked := true;
      res := EvalWithRpc(kv, k, s);
      return;
    }
    asked := false;
    res := EvalPages(n, sub, table, mem, buf, k, ns, ne, s, sel, m, r);
  }

  lemma NotStored(s: State, n: Pos, sel: Key -> nat, m: nat, r: Range, sub: Sub, table: seq<nat>, k: Key)
    requires Served(s, n, sel, m, r, sub, table) && sel(k) == m && table == []
    ensures Expected(s, n, k) == Aborted
  {
    if k in Pairs(s, n) {
      TableThere(s, n, sel, m, r, sub, table, k);
    }
  }

  // ---------- the YCSB client ----------

  /** The lookup of the YCSB client: one batch of at most ten pages, and no
      assertion about the table.  It returns what the tree's get returns as
      well. */
  method YcsbEval(kv: XTree, first: Key -> real, num: nat, upBound: nat, models: seq<XSubModel>, tts: seq<seq<nat>>,
                  mem: Memory, buf: array<seq<Key>>, k: Key,
                  ghost s: State, ghost subs: seq<Sub>, ghost ranges: seq<Range>)
    returns (res: Outcome, asked: bool)
    requires kv.Valid() && kv.root != Null && kv.state == s && WellFormed(s, kv.n) && kv.n > 0 && k != INVALID
    requires num > 0 && |models| == |subs| == num && forall i :: 0 <= i < num ==> SubOf(models[i]) == subs[i]
    requires Built(s, kv.n, Selector(first, num, upBound), ranges, subs, tts)
    requires Mirrors(mem, StoreTips(s)) && Addressable(StoreTips(s)) && buf.Length >= YCSB_BATCH
    modifies buf
    ensures res == Expected(s, kv.n, k)
    ensures var m := Select(first, num, upBound, k);
      && (asked <==> !(0 <= PagesWanted(kv.n, subs[m], tts[m], k) <= 10))
      && (!asked && tts[m] != [] ==> Searched(kv.n, subs[m], tts[m], k, mem, buf[..]))
  {
    var m := SelectSecModel(first, num, upBound, |models|, k);
    ghost var sel := Selector(first, num, upBound);
    assert Served(s, kv.n, sel, m, ranges[m], subs[m], tts[m]);
    res, asked := YcsbEvalModel(kv, models[m], tts[m], mem, buf, k, s, sel, m, ranges[m], subs[m]);
  }

  method YcsbEvalModel(kv: XTree, model: XSubModel, table: seq<nat>, mem: Memory, buf: array<seq<Key>>, k: Key,
                       ghost s: State, ghost sel: Key -> nat, ghost m: nat, ghost r: Range, ghost sub: Sub)
    returns (res: Outcome, asked: bool)
    requires kv.Valid() && kv.root != Null && kv.state == s && WellFormed(s, kv.n) && kv.n > 0 && k != INVALID
    requires Served(s, kv.n, sel, m, r, sub, table) && sel(k) == m && SubOf(model) == sub
    requires Mirrors(mem, StoreTips(s)) && Addressable(StoreTips(s)) && buf.Length >= YCSB_BATCH
    modifies buf
    ensures res == Expected(s, kv.n, k)
    ensures asked <==> !(0 <= PagesWanted(kv.n, sub, table, k) <= 10)
    ensures !asked && table != [] ==> Searched(kv.n, sub, table, k, mem, buf[..])
  {
    var n: Pos := kv.n;
    var start, end := model.GetPredictRange(k);
    var ns := PageId(n, start);
    var ne := Min(|table| - 1, PageId(n, end));
    // the program compares as unsigned: a negative count is too large as well
    var count := ne - ns + 1;
    if count < 0 || count > YCSB_BATCH {
      asked := true;
      res := EvalWithRpc(kv, k, s);
      return;
    }
    asked := false;
    res := YcsbPages(n, sub, table, mem, buf, k, ns, ne, s, sel, m, r);
  }

  /** The page branch, for a range that fits into the batch. */
  method YcsbPages(n: Pos, ghost sub: Sub, table: seq<nat>, mem: Memory, buf: array<seq<Key>>, k: Key, ns: nat, ne: int,
                   ghost s: State, ghost sel: Key -> nat, ghost m: nat, ghost r: Range)
    returns (res: Outcome)
    requires Served(s, n, sel, m, r, sub, table) && sel(k) == m && k != INVALID
    requires Mirrors(mem, StoreTips(s)) && Addressable(StoreTips(s))
    requires table != [] ==> ne >= 0 && Narrow(n, sub, table, k, ns, ne)
    requires ns <= ne + 1 <= |table| && ne + 1 - ns <= YCSB_BATCH && buf.Length >= YCSB_BATCH
    modifies buf
    ensures res == Expected(s, n, k) && Fetched(buf[..], table, mem, ns, ne + 1)
  {
    TableFetchable(s, n, r, sub, table, mem);
    FetchAtOnce(table, mem, n, ns, ne, buf);
    res := SearchPages(table, mem, n, ns, ne, buf, k);
    if table == [] {
      NotStored(s, n, sel, m, r, sub, table, k);
    } else {
      PagesRight(s, n, sel, m, r, sub, table, mem, k, ns, ne, res);
    }
  }
}
