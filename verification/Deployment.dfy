/** Server and client together: a loaded tree is trained on, then looked up; and
    what the tag in a table entry says once the tree has changed. */
module Deployment {
  import opened Keys
  import opened XNode
  import opened BTree
  import opened LeafChain
  import opened Store
  import opened TreeInner
  import opened XTree
  import opened TTIter
  import opened Samplers
  import opened SubModel
  import opened Trainer
  import opened Rmi
  import opened Server
  import opened BatchOps
  import opened Lookup
  import opened Image
  import Runs
  import Rpc

  // ---------- the leaves in the registered memory ----------

  /** What a remote reader finds at the leaves' addresses. */
  ghost function MemoryOf(tips: seq<Tip>): Memory {
    if tips == [] then map[] else MemoryOf(tips[..|tips| - 1])[tips[|tips| - 1].leaf.addr := tips[|tips| - 1].page]
  }

  /** No two leaves have the same address. */
  ghost predicate OwnAddresses(tips: seq<Tip>) {
    forall i, j {:trigger tips[i], tips[j]} :: 0 <= i < j < |tips| ==> tips[i].leaf.addr != tips[j].leaf.addr
  }

  lemma {:induction false} MemoryMirrors(tips: seq<Tip>, m: nat)
    requires OwnAddresses(tips) && m <= |tips|
    ensures Mirrors(MemoryOf(tips[..m]), tips[..m])
  {
    if m > 0 {
      MemoryMirrors(tips, m - 1);
      assert tips[..m][..m - 1] == tips[..m - 1];
      forall i | 0 <= i < m
        ensures tips[i].leaf.addr in MemoryOf(tips[..m]) && MemoryOf(tips[..m])[tips[i].leaf.addr] == tips[i].page
      {
        if i < m - 1 {
          assert tips[..m - 1][i] == tips[i];
        }
      }
    }
  }

  lemma BlocksOwn(tips: seq<Tip>, lo: nat, unit: nat, hi: int)
    requires Separate(tips) && InBlocks(Leaves(tips), lo, unit, hi) && unit > 0
    ensures OwnAddresses(tips)
    ensures hi <= ADDR_LIMIT ==> Addressable(tips)
  {
    forall i | 0 <= i < |tips| ensures tips[i].leaf in Leaves(tips) {}
    forall i, j | 0 <= i < j < |tips| ensures tips[i].leaf.addr != tips[j].leaf.addr {
      assert Differ(tips[i], tips[j]);
      assert ApartInMemory(tips[i].leaf, tips[j].leaf, unit);
    }
    if hi <= ADDR_LIMIT {
      forall i | 0 <= i < |tips| ensures Fits(tips[i].leaf.addr) {
        FitsIff(tips[i].leaf.addr);
      }
    }
  }

  /** The leaves of a tree that lives in a pool can be read remotely, each at its
      own address; if the pool ends below 2^56 they all fit into table entries. */
  lemma PoolReadable(kv: XTree, alloc: XAlloc)
    requires kv.Pooled(alloc)
    ensures Mirrors(MemoryOf(StoreTips(kv.state)), StoreTips(kv.state))
    ensures alloc.pool + alloc.total <= ADDR_LIMIT ==> Addressable(StoreTips(kv.state))
  {
    var tips := StoreTips(kv.state);
    BlocksOwn(tips, alloc.pool, alloc.unit, alloc.pool + alloc.curSz - if kv.preAlloc == null then 0 else alloc.unit);
    MemoryMirrors(tips, |tips|);
    assert tips[..|tips|] == tips;
  }

  // ---------- loading ----------

  /** The pairs from i on have keys of their own, which m does not hold. */
  ghost predicate NewKeys(pairs: seq<(Key, Value)>, i: nat, m: map<Key, Value>) {
    && (forall j {:trigger pairs[j]} :: i <= j < |pairs| ==> pairs[j].0 != INVALID && pairs[j].0 !in m)
    && (forall j, l {:trigger pairs[j], pairs[l]} :: i <= j < l < |pairs| ==> pairs[j].0 != pairs[l].0)
  }

  lemma NewKeysLeft(pairs: seq<(Key, Value)>, i: nat, m: map<Key, Value>)
    requires NewKeys(pairs, i, m) && i < |pairs|
    ensures NewKeys(pairs, i + 1, m[pairs[i].0 := pairs[i].1])
    ensures |m[pairs[i].0 := pairs[i].1]| <= |m| + 1
  {
    AddOne(m, pairs[i].0, pairs[i].1);
  }

  /** The states and operations so far are a run from s0 to s, of the first i
      pairs. */
  ghost predicate Loaded(n: nat, s0: State, s: State, ss: seq<State>, ops: seq<Runs.Op>, pairs: seq<(Key, Value)>,
                         i: nat) {
    && Runs.Run(n, ss, ops) && |ops| == i <= |pairs| && ss[0] == s0 && ss[i] == s
    && forall j :: 0 <= j < i ==> ops[j].k == pairs[j].0 && ops[j].v == pairs[j].1
  }

  lemma LoadedMore(n: nat, s0: State, s: State, ss: seq<State>, ops: seq<Runs.Op>, pairs: seq<(Key, Value)>, i: nat,
                   op: Runs.Op, s': State)
    requires Loaded(n, s0, s, ss, ops, pairs, i) && i < |pairs| && op.k == pairs[i].0 && op.v == pairs[i].1
    requires Runs.Follows(n, s, op, s')
    ensures Loaded(n, s0, s', ss + [s'], ops + [op], pairs, i + 1)
  {
    Runs.RunMore(n, ss, ops, op, s');
  }

  /** Inserting pairs one after the other is a run of inserts, so everything that
      holds of runs holds of the tree object. */
  method Load(kv: XTree, alloc: XAlloc, pairs: seq<(Key, Value)>, ghost keys: nat)
    returns (ghost ss: seq<State>, ghost ops: seq<Runs.Op>)
    requires kv.Pooled(alloc) && kv.Roomy(alloc, keys)
    requires NewKeys(pairs, 0, Pairs(kv.state, kv.n)) && |Pairs(kv.state, kv.n)| + |pairs| <= keys
    modifies kv, kv.repr, alloc
    ensures kv.Pooled(alloc) && Loaded(kv.n, old(kv.state), kv.state, ss, ops, pairs, |pairs|)
  {
    ss, ops := [kv.state], [];
    var i := 0;
    while i < |pairs|
      invariant kv.Pooled(alloc) && fresh(kv.repr - old(kv.repr))
      invariant Loaded(kv.n, old(kv.state), kv.state, ss, ops, pairs, i)
      invariant NewKeys(pairs, i, Pairs(kv.state, kv.n)) && |Pairs(kv.state, kv.n)| + |pairs| - i <= keys
    {
      ss, ops := LoadOne(kv, alloc, pairs, keys, i, old(kv.state), ss, ops);
      i := i + 1;
    }
  }

  method LoadOne(kv: XTree, alloc: XAlloc, pairs: seq<(Key, Value)>, ghost keys: nat, i: nat,
                 ghost s0: State, ghost ss0: seq<State>, ghost ops0: seq<Runs.Op>)
    returns (ghost ss: seq<State>, ghost ops: seq<Runs.Op>)
    requires kv.Pooled(alloc) && kv.Roomy(alloc, keys) && i < |pairs|
    requires Loaded(kv.n, s0, kv.state, ss0, ops0, pairs, i)
    requires NewKeys(pairs, i, Pairs(kv.state, kv.n)) && |Pairs(kv.state, kv.n)| + |pairs| - i <= keys
    modifies kv, kv.repr, alloc
    ensures kv.Pooled(alloc) && fresh(kv.repr - old(kv.repr))
    ensures Loaded(kv.n, s0, kv.state, ss, ops, pairs, i + 1)
    ensures NewKeys(pairs, i + 1, Pairs(kv.state, kv.n)) && |Pairs(kv.state, kv.n)| + |pairs| - i - 1 <= keys
  {
    NewKeysLeft(pairs, i, Pairs(kv.state, kv.n));
    var ret;
    ghost var op;
    ret, op := kv.InsertWAlloc(pairs[i].0, pairs[i].1, alloc, keys);
    LoadedMore(kv.n, s0, old(kv.state), ss0, ops0, pairs, i, op, kv.state);
    ss, ops := ss0 + [kv.state], ops0 + [op];
  }

  // ---------- training, sending, looking up ----------

  /** The learned parameters as bytes; pack and unpack are the serialization of
      the model's type. */
  datatype Codec = Codec(pack: (Key -> real) -> seq<Byte>, unpack: seq<Byte> -> Key -> real, size: nat)

  /** Every function that training can yield comes through unharmed. */
  ghost predicate Exact(c: Codec, learn: seq<Sample> -> Key -> real, untrained: Key -> real) {
    && Keeps(c, untrained)
    && forall xs {:trigger learn(xs)} :: Keeps(c, learn(xs))
  }

  ghost predicate Keeps(c: Codec, ml: Key -> real) {
    |c.pack(ml)| == c.size && c.unpack(c.pack(ml)) == ml
  }

  function ImageOf(c: Codec, sub: Sub): SubImage {
    SubImage(sub.errMax, sub.errMin, sub.max, c.pack(sub.ml))
  }

  function ImagesOf(c: Codec, subs: seq<Sub>): (r: seq<SubImage>)
    ensures |r| == |subs| && forall i :: 0 <= i < |subs| ==> r[i] == ImageOf(c, subs[i])
  {
    seq(|subs|, i requires 0 <= i < |subs| => ImageOf(c, subs[i]))
  }

  /** A table's entries fit into the image. */
  lemma TableStorable(s: State, n: Pos, r: Range, sub: Sub, table: seq<nat>)
    requires Trained(s, n, r, sub, table) && Addressable(StoreTips(s)) && LabelsFit(|StoreTips(s)|, n)
    ensures TableValid(table)
  {
    if table != [] {
      var start, seen := TrainedTable(s, n, r, sub, table);
      var tips := StoreTips(s);
      FewLeaves(|tips|, n);
      forall t | 0 <= t < |table| ensures table[t] < U64 {
        RunEntry(tips, start, seen, table, t);
        assert Fits(tips[start + t].leaf.addr);
        EntryRoundTrip(tips[start + t].leaf.addr, tips[start + t].page.incar);
      }
    }
  }

  lemma FewLeaves(leaves: nat, n: Pos)
    requires LabelsFit(leaves, n)
    ensures leaves <= LABEL_MAX
  {
    assert leaves * n == leaves + leaves * (n - 1);
  }

  lemma CacheStorable(s: State, n: Pos, sel: Key -> nat, ranges: seq<Range>, subs: seq<Sub>, tts: seq<seq<nat>>,
                      c: Codec)
    requires Built(s, n, sel, ranges, subs, tts) && Addressable(StoreTips(s)) && LabelsFit(|StoreTips(s)|, n)
    requires forall i :: 0 <= i < |subs| ==> Keeps(c, subs[i].ml)
    ensures Storable(ImagesOf(c, subs), tts, c.size)
  {
    forall i | 0 <= i < |subs| ensures ImageOf(c, subs[i]).Valid(c.size) && TableValid(tts[i]) {
      assert Served(s, n, sel, i, ranges[i], subs[i], tts[i]);
      TableStorable(s, n, ranges[i], subs[i], tts[i]);
    }
  }

  /** The client's models, made from what it has parsed. */
  method Restore(c: Codec, images: seq<SubImage>, ghost subs: seq<Sub>) returns (models: seq<XSubModel>)
    requires images == ImagesOf(c, subs) && forall i :: 0 <= i < |subs| ==> Keeps(c, subs[i].ml)
    ensures |models| == |subs| && forall i :: 0 <= i < |subs| ==> SubOf(models[i]) == subs[i]
  {
    models := [];
    while |models| < |images|
      invariant |models| <= |images| && forall i :: 0 <= i < |models| ==> SubOf(models[i]) == subs[i]
    {
      var image := images[|models|];
      assert image == ImageOf(c, subs[|models|]);
      var model := new XSubModel.Restored(c.unpack(image.ml), image.errMin, image.errMax, image.max);
      models := models + [model];
    }
  }

  lemma AllKept(c: Codec, learn: seq<Sample> -> Key -> real, untrained: Key -> real, subs: seq<Sub>)
    requires Exact(c, learn, untrained) && AllLearned(learn, untrained, subs)
    ensures forall i :: 0 <= i < |subs| ==> Keeps(c, subs[i].ml)
  {
    forall i | 0 <= i < |subs| ensures Keeps(c, subs[i].ml) {
      assert Learned(learn, untrained, subs[i].ml);
    }
  }

  /** Models, padding and tables with that many entries fit into the memory. */
  predicate ImageFits(mlSz: nat, num: nat, modelBuf: nat, bufEnd: nat, entries: nat) {
    RoundUp(modelBuf + num * SubSize(mlSz), 8) + 4 * num + 8 * entries <= bufEnd
  }

  lemma FitsFewer(mlSz: nat, num: nat, modelBuf: nat, bufEnd: nat, entries: nat, most: nat)
    requires entries <= most
    ensures ImageFits(mlSz, num, modelBuf, bufEnd, most) ==> ImageFits(mlSz, num, modelBuf, bufEnd, entries)
  {}

  lemma ImageSize(c: Codec, subs: seq<Sub>, tts: seq<seq<nat>>)
    requires |subs| == |tts| && Storable(ImagesOf(c, subs), tts, c.size)
    ensures |AllSubs(ImagesOf(c, subs))| == |subs| * SubSize(c.size)
    ensures |AllTables(tts)| == 4 * |subs| + 8 * Entries(tts)
  {
    SubsLength(ImagesOf(c, subs), c.size);
    TablesLength(tts);
  }

  /** No table is longer than the chain of leaves. */
  lemma EntriesFew(s: State, n: Pos, sel: Key -> nat, ranges: seq<Range>, subs: seq<Sub>, tts: seq<seq<nat>>)
    requires Built(s, n, sel, ranges, subs, tts)
    ensures Entries(tts) <= |subs| * |StoreTips(s)|
  {
    forall i | 0 <= i < |subs| ensures |tts[i]| <= |StoreTips(s)| {
      assert Served(s, n, sel, i, ranges[i], subs[i], tts[i]);
      TableShort(s, n, ranges[i], subs[i], tts[i]);
    }
    EntriesBound(tts, |StoreTips(s)|);
  }

  lemma TableShort(s: State, n: Pos, r: Range, sub: Sub, table: seq<nat>)
    requires Trained(s, n, r, sub, table)
    ensures |table| <= |StoreTips(s)|
  {
    if table != [] {
      var start, seen := TrainedTable(s, n, r, sub, table);
    }
  }

  /** The server's part: a cache that can be stored, and how large it is. */
  method TrainCache(kv: XTree, alloc: XAlloc, first: Key -> real, num: nat, upBound: nat, scheme: Scheme,
                    learn: seq<Sample> -> Key -> real, untrained: Key -> real, codec: Codec)
    returns (subs: seq<Sub>, tts: seq<seq<nat>>, ghost ranges: seq<Range>)
    requires kv.Pooled(alloc) && alloc.pool + alloc.total <= ADDR_LIMIT && kv.root != Null && num > 0
    requires LabelsFit(|StoreTips(kv.state)|, kv.n) && Suits(scheme, learn, kv.state, kv.n)
    requires Exact(codec, learn, untrained)
    ensures |subs| == num && Built(kv.state, kv.n, Selector(first, num, upBound), ranges, subs, tts)
    ensures Storable(ImagesOf(codec, subs), tts, codec.size)
    ensures forall i :: 0 <= i < num ==> Keeps(codec, subs[i].ml)
    ensures Entries(tts) <= num * |StoreTips(kv.state)|
    ensures AllTrainedBy(scheme, learn, kv.state, kv.n, ranges, subs)
  {
    ghost var s, sel := kv.state, Selector(first, num, upBound);
    PoolReadable(kv, alloc);
    subs, tts, ranges := TrainDb(kv, first, num, upBound, scheme, learn, untrained, s);
    AllKept(codec, learn, untrained, subs);
    CacheStorable(s, kv.n, sel, ranges, subs, tts, codec);
    EntriesFew(s, kv.n, sel, ranges, subs, tts);
  }

  /** From a loaded tree to a lookup: the server trains and writes the image, the
      client parses it and looks a key up.  This succeeds exactly if the image
      fits, which it does if there is room for a whole chain of leaves in every
      table; and then, whatever the two layers learn and wherever the image lies,
      the result is that of the tree's get. */
  method TrainAndLookup(kv: XTree, alloc: XAlloc, first: Key -> real, num: nat, upBound: nat,
                        learn: seq<Sample> -> Key -> real, untrained: Key -> real, codec: Codec,
                        modelBuf: nat, bufEnd: nat, image: array<Byte>, mem: Memory, buf: array<seq<Key>>, k: Key)
    returns (ok: bool, res: Outcome, asked: bool, ghost subs: seq<Sub>, ghost tables: seq<seq<nat>>,
             ghost ranges: seq<Range>)
    requires kv.Pooled(alloc) && alloc.pool + alloc.total <= ADDR_LIMIT && kv.root != Null && num > 0 && k != INVALID
    requires mem == MemoryOf(StoreTips(kv.state)) && LabelsFit(|StoreTips(kv.state)|, kv.n) && buf.Length >= MAX_PAGES
    requires Exact(codec, learn, untrained) && bufEnd == modelBuf + image.Length && image !in kv.repr
    modifies image, buf
    ensures |subs| == num && Built(kv.state, kv.n, Selector(first, num, upBound), ranges, subs, tables)
    ensures ok <==> ImageFits(codec.size, num, modelBuf, bufEnd, Entries(tables))
    ensures ImageFits(codec.size, num, modelBuf, bufEnd, num * |StoreTips(kv.state)|) ==> ok
    ensures AllTrainedBy(DataDist, learn, kv.state, kv.n, ranges, subs)
    ensures ok ==> res == Expected(kv.state, kv.n, k)
    ensures var m := Select(first, num, upBound, k);
      ok ==> (asked <==> tables[m] != [] && !(0 <= PagesWanted(kv.n, subs[m], tables[m], k) <= 200))
  {
    ghost var s := kv.state;
    PoolReadable(kv, alloc);
    var trained, tts;
    trained, tts, ranges := TrainCache(kv, alloc, first, num, upBound, DataDist, learn, untrained, codec);
    subs, tables := trained, tts;
    FitsFewer(codec.size, num, modelBuf, bufEnd, Entries(tts), num * |StoreTips(s)|);
    var models, parsed;
    ok, models, parsed := Transfer(codec, trained, tts, modelBuf, bufEnd, image);
    res, asked := Aborted, false;
    if ok {
      res, asked := CoreEval(kv, first, num, upBound, models, parsed, mem, buf, k, s, subs, ranges);
    }
  }

  method Transfer(c: Codec, subs: seq<Sub>, tts: seq<seq<nat>>, modelBuf: nat, bufEnd: nat, image: array<Byte>)
    returns (ok: bool, models: seq<XSubModel>, tts': seq<seq<nat>>)
    requires bufEnd == modelBuf + image.Length && |subs| == |tts| > 0 && Storable(ImagesOf(c, subs), tts, c.size)
    requires forall i :: 0 <= i < |subs| ==> Keeps(c, subs[i].ml)
    modifies image
    ensures ok <==> ImageFits(c.size, |subs|, modelBuf, bufEnd, Entries(tts))
    ensures ok ==> tts' == tts && |models| == |subs| && forall i :: 0 <= i < |subs| ==> SubOf(models[i]) == subs[i]
  {
    ImageSize(c, subs, tts);
    var ttBuf, end, images, cur;
    ok, ttBuf, end, images, tts', cur := Bootstrap(ImagesOf(c, subs), tts, c.size, modelBuf, bufEnd, image);
    models := [];
    if ok {
      models := Restore(c, images, subs);
    }
  }

  /** The same for the YCSB server and client, which sample page ends, take steps
      of two and do not skip the padding: for learned functions that do not fall,
      with at least four slots a leaf and models that end at a multiple of 8. */
  method YcsbTrainAndLookup(kv: XTree, alloc: XAlloc, first: Key -> real, num: nat, upBound: nat,
                            learn: seq<Sample> -> Key -> real, untrained: Key -> real, codec: Codec,
                            modelBuf: nat, bufEnd: nat, image: array<Byte>, mem: Memory, buf: array<seq<Key>>,
                            k: Key)
    returns (ok: bool, res: Outcome, asked: bool, ghost subs: seq<Sub>, ghost tables: seq<seq<nat>>,
             ghost ranges: seq<Range>)
    requires kv.Pooled(alloc) && alloc.pool + alloc.total <= ADDR_LIMIT && kv.root != Null && num > 0 && k != INVALID
    requires mem == MemoryOf(StoreTips(kv.state)) && LabelsFit(|StoreTips(kv.state)|, kv.n) && buf.Length >= YCSB_BATCH
    requires Exact(codec, learn, untrained) && bufEnd == modelBuf + image.Length && image !in kv.repr
    requires Suits(Ycsb, learn, kv.state, kv.n) && (modelBuf + num * SubSize(codec.size)) % 8 == 0
    modifies image, buf
    ensures |subs| == num && Built(kv.state, kv.n, Selector(first, num, upBound), ranges, subs, tables)
    ensures ok <==> ImageFits(codec.size, num, modelBuf, bufEnd, Entries(tables))
    ensures ImageFits(codec.size, num, modelBuf, bufEnd, num * |StoreTips(kv.state)|) ==> ok
    ensures AllTrainedBy(Ycsb, learn, kv.state, kv.n, ranges, subs)
    ensures ok ==> res == Expected(kv.state, kv.n, k)
    ensures var m := Select(first, num, upBound, k);
      ok ==> (asked <==> !(0 <= PagesWanted(kv.n, subs[m], tables[m], k) <= 10))
  {
    ghost var s := kv.state;
    PoolReadable(kv, alloc);
    var trained, tts;
    trained, tts, ranges := TrainCache(kv, alloc, first, num, upBound, Ycsb, learn, untrained, codec);
    subs, tables := trained, tts;
    FitsFewer(codec.size, num, modelBuf, bufEnd, Entries(tts), num * |StoreTips(s)|);
    var models, parsed;
    ok, models, parsed := YcsbTransfer(codec, trained, tts, modelBuf, bufEnd, image);
    res, asked := Aborted, false;
    if ok {
      res, asked := YcsbEval(kv, first, num, upBound, models, parsed, mem, buf, k, s, subs, ranges);
    }
  }

  method YcsbTransfer(c: Codec, subs: seq<Sub>, tts: seq<seq<nat>>, modelBuf: nat, bufEnd: nat, image: array<Byte>)
    returns (ok: bool, models: seq<XSubModel>, tts': seq<seq<nat>>)
    requires bufEnd == modelBuf + image.Length && |subs| == |tts| > 0 && Storable(ImagesOf(c, subs), tts, c.size)
    requires forall i :: 0 <= i < |subs| ==> Keeps(c, subs[i].ml)
    requires (modelBuf + |subs| * SubSize(c.size)) % 8 == 0
    modifies image
    ensures ok <==> ImageFits(c.size, |subs|, modelBuf, bufEnd, Entries(tts))
    ensures ok ==> tts' == tts && |models| == |subs| && forall i :: 0 <= i < |subs| ==> SubOf(models[i]) == subs[i]
  {
    ImageSize(c, subs, tts);
    var images, parsed;
    ghost var pad;
    ok, images, parsed, pad := YcsbBootstrap(ImagesOf(c, subs), tts, c.size, modelBuf, bufEnd, image);
    models, tts' := [], [];
    if ok {
      models := Restore(c, images, subs);
      tts' := parsed.value.tts;
    }
  }

  // ---------- the answer to a get by message ----------

  /** The server's reply to request id, which asks for key asked(id). */
  ghost function GetReply(s: State, n: Pos, asked: nat -> Key): nat -> seq<Byte>
    requires WellFormed(s, n)
  {
    id => Enc(8, if asked(id) in Pairs(s, n) then Pairs(s, n)[asked(id)] else 0)
  }

  /** Whatever else is under way, a coroutine that asked for a stored key is
      resumed with its value in the buffer, as a lookup must return it. */
  lemma MessageAnswers(s: State, n: Pos, asked: nat -> Key, ss: seq<Rpc.System>, j: nat, c: nat)
    requires WellFormed(s, n) && Rpc.Run(GetReply(s, n, asked), 8, ss) && j < |ss| && |ss[0].cors| <= Rpc.COR_LIMIT
    requires Rpc.Do(GetReply(s, n, asked), 8, ss[j], Rpc.Resume(c)).Goes? && asked(ss[j].cors[c].id) in Pairs(s, n)
    ensures c < |ss[j].station| && Dec(ss[j].station[c].got) < U64
    ensures Found(Dec(ss[j].station[c].got)) == Expected(s, n, asked(ss[j].cors[c].id))
  {
    var v := Pairs(s, n)[asked(ss[j].cors[c].id)];
    var answer := GetReply(s, n, asked);
    forall id: nat ensures |answer(id)| <= 8 {
      assert answer(id) == Enc(8, if asked(id) in Pairs(s, n) then Pairs(s, n)[asked(id)] else 0);
    }
    Rpc.OwnAnswer(GetReply(s, n, asked), 8, ss, j, c);
    Limits();
    DecEnc(8, v);
  }

  // ---------- entries of leaves that have changed ----------

  /** A table entry made for leaf when its page was p, looked at after a run of
      inserts: as long as fewer than 256 splits have hit the leaf, the entry's tag
      is the leaf's exactly when none has, and then every key the page had is
      still in its slot with its value. */
  lemma EntryTells(n: nat, ss: seq<State>, ops: seq<Runs.Op>, leaf: Leaf, p: Page, q: Page)
    requires Runs.Run(n, ss, ops) && ss[0].root.Some? && Runs.Holds(ss[0], leaf, p) && Runs.Holds(ss[|ops|], leaf, q)
    requires p.incar < 0x1_0000 && |p.keys| == |p.vals| && Fits(leaf.addr)
    requires Runs.Splits(n, ss, ops, |ops|, leaf) < 256
    ensures AddrOf(Entry(leaf.addr, p.incar)) == leaf.addr
    ensures TagIn(Entry(leaf.addr, p.incar)) == q.incar % 256 <==> Runs.Splits(n, ss, ops, |ops|, leaf) == 0
    ensures TagIn(Entry(leaf.addr, p.incar)) == q.incar % 256 ==> Runs.Still(p, q)
  {
    EntryRoundTrip(leaf.addr, p.incar);
    Runs.FreshTag(n, ss, ops, leaf, p, q);
  }
}
