/** Building the learned cache on the server (train_db): a model and a
    translation table for every trainer. */
module Server {
  import opened Keys
  import opened Store
  import opened TreeInner
  import opened XTree
  import opened TTIter
  import opened Samplers
  import opened SubModel
  import opened Reach
  import opened Trainer
  import opened Rmi
  import opened Shrinking

  /** A model as it is sent to the clients. */
  datatype Sub = Sub(ml: Key -> real, errMin: int, errMax: int, max: int)

  function SubOf(m: XSubModel): Sub
    reads m
  {
    Sub(m.ml, m.errMin, m.errMax, m.max)
  }

  /** A function that a model can have after training. */
  ghost predicate Learned(learn: seq<Sample> -> Key -> real, untrained: Key -> real, ml: Key -> real) {
    ml == untrained || exists xs :: ml == learn(xs)
  }

  // ---------- how the servers train ----------

  /** The two servers: one samples every key, takes steps of one and searches for
      the least gap; the other samples page ends, takes steps of two and leaves a
      prediction on the right page alone. */
  datatype Scheme = DataDist | Ycsb

  function Sampling(c: Scheme, n: Pos): Kind {
    if c.DataDist? then EveryKey else PageEnds(n)
  }

  function Thinning(c: Scheme): Kind {
    if c.DataDist? then EveryStep(1) else EveryStep(2)
  }

  function Widening(c: Scheme, n: Pos): Updater {
    if c.DataDist? then GapSearch(n) else SamePage(n)
  }

  /** What the learned function is learned from. */
  ghost function Lesson(c: Scheme, s: State, n: Pos, lo: Key, hi: Key): seq<Sample>
    requires WellFormed(s, n) && s.root.Some?
  {
    Kept(Thinning(c), Kept(Sampling(c, n), FeedOf(s, n, lo, hi)))
  }

  /** What a scheme needs of the learning.  Sampling every key needs nothing; on
      page ends, leaves have at least four slots, and what is learned for a
      trainer does not fall on its keys and stays in the range of int. */
  ghost predicate Suits(c: Scheme, learn: seq<Sample> -> Key -> real, s: State, n: Pos) {
    c.Ycsb? && WellFormed(s, n) && s.root.Some? ==>
      && n >= 4
      && forall lo, hi {:trigger Lesson(c, s, n, lo, hi)} ::
           Monotone(learn(Lesson(c, s, n, lo, hi)), FeedOf(s, n, lo, hi))
  }

  /** A model trained for the keys lo to hi. */
  ghost predicate TrainedBy(c: Scheme, learn: seq<Sample> -> Key -> real, s: State, n: Pos, r: Range, sub: Sub)
    requires WellFormed(s, n) && s.root.Some?
  {
    Accurate(sub.ml, sub.errMin, sub.errMax, sub.max, learn, Widening(c, n),
             Kept(Sampling(c, n), FeedOf(s, n, r.lo, r.hi)), Lesson(c, s, n, r.lo, r.hi))
  }

  /** Under either scheme the pages of the predicted range include the page of
      every key of the trainer. */
  lemma SchemeReaches(c: Scheme, learn: seq<Sample> -> Key -> real, s: State, n: Pos, r: Range, sub: Sub)
    requires WellFormed(s, n) && s.root.Some? && TrainedBy(c, learn, s, n, r, sub) && Suits(c, learn, s, n)
    ensures AllInPages(n, sub.ml, sub.errMin, sub.errMax, sub.max, FeedOf(s, n, r.lo, r.hi))
  {
    var feed := FeedOf(s, n, r.lo, r.hi);
    match c
    case DataDist =>
      EveryKeyKeeps(feed, |feed|);
      FeedAscends(s, n, r.lo, r.hi);
      StepOneReaches(n, GapSearch(n), sub.ml, sub.errMin, sub.errMax, feed);
    case Ycsb =>
      assert sub.ml == learn(Lesson(c, s, n, r.lo, r.hi));
      SampledStepTwo(s, n, r.lo, r.hi, SamePage(n), sub.ml, sub.errMin, sub.errMax);
  }

  // ---------- how tight the bounds are ----------

  /** The first server's bounds are the least around zero that reach the page of
      every key of the trainer. */
  lemma DataDistLeast(learn: seq<Sample> -> Key -> real, s: State, n: Pos, r: Range, sub: Sub, a: int, b: int)
    requires WellFormed(s, n) && s.root.Some? && TrainedBy(DataDist, learn, s, n, r, sub) && a <= 0 <= b
    requires forall x :: x in FeedOf(s, n, r.lo, r.hi) ==> Covers(n, PointPredict(sub.ml, sub.max, x.key), a, b, x.mark)
    ensures a <= sub.errMin && sub.errMax <= b
    ensures forall x :: x in FeedOf(s, n, r.lo, r.hi) ==>
      Covers(n, PointPredict(sub.ml, sub.max, x.key), sub.errMin, sub.errMax, x.mark)
  {
    var feed := FeedOf(s, n, r.lo, r.hi);
    EveryKeyKeeps(feed, |feed|);
    forall x | x in feed ensures Covers(n, PointPredict(sub.ml, sub.max, x.key), sub.errMin, sub.errMax, x.mark) {
      ReachedIn(n, GapSearch(n), sub.ml, sub.max, sub.errMin, sub.errMax, feed, x);
    }
    CoveredReached(n, sub.ml, sub.max, a, b, feed);
    TightIsLeast(GapSearch(n), sub.ml, sub.max, sub.errMin, sub.errMax, feed, a, b);
  }

  lemma CoveredReached(n: Pos, ml: Key -> real, max: int, a: int, b: int, xs: seq<Sample>)
    requires forall x :: x in xs ==> Covers(n, PointPredict(ml, max, x.key), a, b, x.mark)
    ensures AllReached(GapSearch(n), ml, max, a, b, xs)
  {}

  /** Its cap is the largest label. */
  lemma DataDistCap(learn: seq<Sample> -> Key -> real, s: State, n: Pos, r: Range, sub: Sub, x: Sample)
    requires WellFormed(s, n) && s.root.Some? && TrainedBy(DataDist, learn, s, n, r, sub)
    requires x in FeedOf(s, n, r.lo, r.hi)
    ensures x.mark <= sub.max <= LABEL_MAX
  {
    var feed := FeedOf(s, n, r.lo, r.hi);
    EveryKeyKeeps(feed, |feed|);
    FeedAscends(s, n, r.lo, r.hi);
    CapStep(feed, 1);
    LastStepOne(|feed|);
    LastIsLargest(feed, x);
  }

  lemma LastIsLargest(xs: seq<Sample>, x: Sample)
    requires Ascends(xs) && x in xs
    ensures x.mark <= xs[|xs| - 1].mark
  {
    var i :| 0 <= i < |xs| && xs[i] == x;
  }

  /** A function that predicts every label of the trainer exactly leaves nothing to
      search but the page, and the next one at the cap. */
  lemma ExactLeaves(learn: seq<Sample> -> Key -> real, s: State, n: Pos, r: Range, sub: Sub)
    requires WellFormed(s, n) && s.root.Some? && TrainedBy(DataDist, learn, s, n, r, sub)
    requires forall x :: x in FeedOf(s, n, r.lo, r.hi) ==> sub.ml(x.key) == x.mark as real
    ensures sub.errMin == 0 && 0 <= sub.errMax <= 1
  {
    forall x | x in FeedOf(s, n, r.lo, r.hi)
      ensures Covers(n, PointPredict(sub.ml, sub.max, x.key), 0, 1, x.mark)
    {
      DataDistCap(learn, s, n, r, sub, x);
      ExactPredicts(n, sub.ml, sub.max, x);
    }
    DataDistLeast(learn, s, n, r, sub, 0, 1);
  }

  lemma ExactPredicts(n: Pos, ml: Key -> real, max: int, x: Sample)
    requires ml(x.key) == x.mark as real && x.mark <= max <= LABEL_MAX
    ensures Covers(n, PointPredict(ml, max, x.key), 0, 1, x.mark)
  {
    PredictsLabel(ml, max, x.key);
    ReachesHere(n, x.mark, PointPredict(ml, max, x.key), 0, 1);
  }

  /** The other server's bounds are zero or the error of a page end that is
      predicted on another page. */
  lemma YcsbErrors(learn: seq<Sample> -> Key -> real, s: State, n: Pos, r: Range, sub: Sub, bound: int)
    requires WellFormed(s, n) && s.root.Some? && TrainedBy(Ycsb, learn, s, n, r, sub)
    requires bound == sub.errMin || bound == sub.errMax
    ensures bound == 0 || exists x {:trigger x in Kept(PageEnds(n), FeedOf(s, n, r.lo, r.hi))} ::
      && x in Kept(PageEnds(n), FeedOf(s, n, r.lo, r.hi))
      && bound == x.mark - PointPredict(sub.ml, sub.max, x.key)
      && x.mark / n != PointPredict(sub.ml, sub.max, x.key) / n
  {
    TightErrors(SamePage(n), sub.ml, sub.max, sub.errMin, sub.errMax, Kept(PageEnds(n), FeedOf(s, n, r.lo, r.hi)));
  }

  // ---------- one model ----------

  /** The model and the table of a trainer with range r.  The table lists the
      leaves from the range's first on; the predicted range includes the page of
      every sample. */
  ghost predicate Trained(s: State, n: Pos, r: Range, sub: Sub, table: seq<nat>) {
    && WellFormed(s, n) && s.root.Some?
    && -LABEL_MAX <= sub.errMin <= 0 <= sub.errMax <= LABEL_MAX && 0 <= sub.max <= LABEL_MAX
    && (r.need ==> TrainedOn(s, n, r, sub, table))
    && (!r.need ==> table == [])
  }

  ghost predicate TrainedOn(s: State, n: Pos, r: Range, sub: Sub, table: seq<nat>)
    requires WellFormed(s, n) && s.root.Some?
  {
    && (exists seen :: Walked(s, n, r.lo, r.hi, [], table, seen))
    && AllInPages(n, sub.ml, sub.errMin, sub.errMax, sub.max, FeedOf(s, n, r.lo, r.hi))
  }

  /** One model, trained as the scheme says. */
  method TrainOne(kv: XTree, trainer: XMLTrainer, c: Scheme, learn: seq<Sample> -> Key -> real, untrained: Key -> real,
                  ghost st: State)
    returns (sub: Sub, table: seq<nat>)
    requires kv.Valid() && kv.root != Null && kv.n > 0 && kv.state == st && WellFormed(st, kv.n) && st.root.Some?
    requires Addressable(StoreTips(st)) && LabelsFit(|StoreTips(st)|, kv.n) && Suits(c, learn, st, kv.n)
    modifies trainer`lWatermark
    ensures Trained(st, kv.n, old(RangeOf(trainer)), sub, table) && Learned(learn, untrained, sub.ml)
    ensures old(trainer.NeedTrain()) ==> TrainedBy(c, learn, st, kv.n, old(RangeOf(trainer)), sub)
    ensures trainer.lWatermark == old(trainer.lWatermark) + if old(trainer.NeedTrain()) then 1 else 0
  {
    ghost var r, n := RangeOf(trainer), kv.n;
    var tt := new TT();
    var it := new TTIter(kv, tt);
    var s := new Sampler(Sampling(c, kv.n));
    var ss := new Sampler(Thinning(c));
    ghost var seen;
    sub, seen := TrainValue(kv, trainer, it, s, ss, c, learn, untrained, st);
    table := tt.entries;
    if r.need {
      SchemeReaches(c, learn, st, n, r, sub);
    }
  }

  method TrainValue(kv: XTree, trainer: XMLTrainer, it: TTIter, s: Sampler, ss: Sampler, c: Scheme,
                    learn: seq<Sample> -> Key -> real, untrained: Key -> real, ghost st: State)
    returns (sub: Sub, ghost seen: nat)
    requires kv.Valid() && kv.root != Null && kv.n == it.core.n > 0 && it.core.sorted
    requires kv.state == st && WellFormed(st, kv.n) && st.root.Some?
    requires it !in kv.repr && it.core !in kv.repr && it.tt !in kv.repr && s !in kv.repr && s != ss
    requires Addressable(StoreTips(st)) && LabelsFit(|StoreTips(st)|, kv.n)
    requires s.Valid([]) && s.fed == [] && ss.Valid([]) && ss.fed == []
    requires s.kind == Sampling(c, kv.n) && ss.kind == Thinning(c)
    modifies it, it.core, it.tt, s, ss, trainer`lWatermark
    ensures trainer.lWatermark == old(trainer.lWatermark) + if old(trainer.NeedTrain()) then 1 else 0
    ensures old(trainer.NeedTrain()) ==>
      && Walked(st, kv.n, trainer.startKey, trainer.endKey, old(it.tt.entries), it.tt.entries, seen)
      && TrainedBy(c, learn, st, kv.n, old(RangeOf(trainer)), sub)
    ensures !old(trainer.NeedTrain()) ==>
        it.tt.entries == old(it.tt.entries) && sub.max == sub.errMin == sub.errMax == 0
    ensures Learned(learn, untrained, sub.ml)
  {
    var model;
    model, seen := trainer.TrainWithShrink(it, kv, s, ss, Widening(c, kv.n), learn, untrained, st);
    sub := SubOf(model);
  }

  // ---------- the whole cache ----------

  /** Model m has been trained on a range around the keys it is selected for. */
  ghost predicate Served(s: State, n: Pos, sel: Key -> nat, m: nat, r: Range, sub: Sub, table: seq<nat>) {
    Trained(s, n, r, sub, table) && Ranged(r, Pairs(s, n).Keys, sel, m)
  }

  /** A model and a table for every number that sel can select. */
  ghost predicate Built(s: State, n: Pos, sel: Key -> nat, ranges: seq<Range>, subs: seq<Sub>, tts: seq<seq<nat>>) {
    && |subs| == |tts| == |ranges|
    && forall m {:trigger Served(s, n, sel, m, ranges[m], subs[m], tts[m])} :: 0 <= m < |subs| ==>
         Served(s, n, sel, m, ranges[m], subs[m], tts[m])
  }

  /** Every model with keys of its own has been trained by the scheme. */
  ghost predicate AllTrainedBy(c: Scheme, learn: seq<Sample> -> Key -> real, s: State, n: Pos, ranges: seq<Range>,
                               subs: seq<Sub>)
    requires WellFormed(s, n) && s.root.Some?
  {
    && |subs| <= |ranges|
    && forall m {:trigger TrainedBy(c, learn, s, n, ranges[m], subs[m])} :: 0 <= m < |subs| && ranges[m].need ==>
         TrainedBy(c, learn, s, n, ranges[m], subs[m])
  }

  /** The trainers from i on still have their ranges. */
  ghost predicate Pending(ts: seq<XMLTrainer>, ranges: seq<Range>, i: nat)
    reads ts
  {
    && |ts| == |ranges|
    && (forall a, b {:trigger Other(ts[a], ts[b])} :: 0 <= a < b < |ts| ==> Other(ts[a], ts[b]))
    && forall j {:trigger RangeOf(ts[j])} :: i <= j < |ts| ==> RangeOf(ts[j]) == ranges[j]
  }

  ghost predicate AllLearned(learn: seq<Sample> -> Key -> real, untrained: Key -> real, subs: seq<Sub>) {
    forall i :: 0 <= i < |subs| ==> Learned(learn, untrained, subs[i].ml)
  }

  ghost function RangesOf(ts: seq<XMLTrainer>): (r: seq<Range>)
    reads ts
    ensures |r| == |ts|
    ensures forall i :: 0 <= i < |ts| ==> r[i] == RangeOf(ts[i])
  {
    seq(|ts|, i requires 0 <= i < |ts| reads ts => RangeOf(ts[i]))
  }

  ghost predicate AllRanged(ranges: seq<Range>, keys: set<Key>, sel: Key -> nat) {
    forall m {:trigger Ranged(ranges[m], keys, sel, m)} :: 0 <= m < |ranges| ==> Ranged(ranges[m], keys, sel, m)
  }

  lemma RangesRight(ts: seq<XMLTrainer>, keys: set<Key>, sel: Key -> nat)
    requires Trainers(ts, keys, sel)
    ensures Pending(ts, RangesOf(ts), 0) && AllRanged(RangesOf(ts), keys, sel)
  {
    assert forall m :: 0 <= m < |ts| ==> Right(ts[m], keys, sel, m);
  }

  /** train_db: dispatch every key, then train every model. */
  method TrainDb(kv: XTree, first: Key -> real, num: nat, upBound: nat, c: Scheme,
                 learn: seq<Sample> -> Key -> real, untrained: Key -> real, ghost st: State)
    returns (subs: seq<Sub>, tts: seq<seq<nat>>, ghost ranges: seq<Range>)
    requires kv.Valid() && kv.root != Null && kv.n > 0 && kv.state == st && WellFormed(st, kv.n) && st.root.Some?
    requires Addressable(StoreTips(st)) && LabelsFit(|StoreTips(st)|, kv.n) && num > 0 && Suits(c, learn, st, kv.n)
    ensures Built(st, kv.n, Selector(first, num, upBound), ranges, subs, tts) && |subs| == num
    ensures AllLearned(learn, untrained, subs) && AllTrainedBy(c, learn, st, kv.n, ranges, subs)
  {
    var ts := DispatchKeysToTrainers(kv, first, num, upBound, st);
    ghost var sel := Selector(first, num, upBound);
    ranges := RangesOf(ts);
    RangesRight(ts, Pairs(st, kv.n).Keys, sel);
    subs, tts := TrainAll(kv, ts, c, learn, untrained, st, sel, ranges);
  }

  method TrainAll(kv: XTree, ts: seq<XMLTrainer>, c: Scheme, learn: seq<Sample> -> Key -> real, untrained: Key -> real,
                  ghost st: State, ghost sel: Key -> nat, ghost ranges: seq<Range>)
    returns (subs: seq<Sub>, tts: seq<seq<nat>>)
    requires kv.Valid() && kv.root != Null && kv.n > 0 && kv.state == st && WellFormed(st, kv.n) && st.root.Some?
    requires Addressable(StoreTips(st)) && LabelsFit(|StoreTips(st)|, kv.n) && Suits(c, learn, st, kv.n)
    requires Pending(ts, ranges, 0) && forall t :: t in ts ==> t !in kv.repr
    requires AllRanged(ranges, Pairs(st, kv.n).Keys, sel)
    modifies ts
    ensures Built(st, kv.n, sel, ranges, subs, tts) && AllLearned(learn, untrained, subs)
    ensures AllTrainedBy(c, learn, st, kv.n, ranges, subs)
  {
    subs, tts := [], [];
    var i := 0;
    while i < |ts|
      invariant i <= |ts| == |ranges| && |subs| == |tts| == i && Pending(ts, ranges, i)
      invariant Built(st, kv.n, sel, ranges[..i], subs, tts)
      invariant kv.Valid() && AllLearned(learn, untrained, subs) && AllTrainedBy(c, learn, st, kv.n, ranges, subs)
    {
      var sub, table := TrainNext(kv, ts[i], ts, i, c, learn, untrained, st, ranges);
      BuiltMore(st, kv.n, sel, ranges, subs, tts, sub, table);
      TaughtMore(c, learn, untrained, st, kv.n, ranges, subs, sub);
      subs, tts := subs + [sub], tts + [table];
      i := i + 1;
    }
    assert ranges[..i] == ranges;
  }

  method TrainNext(kv: XTree, trainer: XMLTrainer, ghost ts: seq<XMLTrainer>, ghost i: nat, c: Scheme,
                   learn: seq<Sample> -> Key -> real, untrained: Key -> real,
                   ghost st: State, ghost ranges: seq<Range>)
    returns (sub: Sub, table: seq<nat>)
    requires kv.Valid() && kv.root != Null && kv.n > 0 && kv.state == st && WellFormed(st, kv.n) && st.root.Some?
    requires Addressable(StoreTips(st)) && LabelsFit(|StoreTips(st)|, kv.n) && Suits(c, learn, st, kv.n)
    requires Pending(ts, ranges, i) && i < |ts| && trainer == ts[i] && trainer !in kv.repr
    modifies trainer`lWatermark
    ensures Trained(st, kv.n, ranges[i], sub, table) && Pending(ts, ranges, i + 1) && kv.Valid()
    ensures ranges[i].need ==> TrainedBy(c, learn, st, kv.n, ranges[i], sub)
    ensures Learned(learn, untrained, sub.ml)
  {
    sub, table := TrainOne(kv, trainer, c, learn, untrained, st);
    assert forall j :: i < j < |ts| ==> Other(ts[i], ts[j]);
  }

  lemma TaughtMore(c: Scheme, learn: seq<Sample> -> Key -> real, untrained: Key -> real, s: State, n: Pos,
                   ranges: seq<Range>, subs: seq<Sub>, sub: Sub)
    requires WellFormed(s, n) && s.root.Some? && |subs| < |ranges|
    requires AllLearned(learn, untrained, subs) && AllTrainedBy(c, learn, s, n, ranges, subs)
    requires Learned(learn, untrained, sub.ml)
    requires ranges[|subs|].need ==> TrainedBy(c, learn, s, n, ranges[|subs|], sub)
    ensures AllLearned(learn, untrained, subs + [sub]) && AllTrainedBy(c, learn, s, n, ranges, subs + [sub])
  {
    forall m | 0 <= m < |subs| + 1 && ranges[m].need ensures TrainedBy(c, learn, s, n, ranges[m], (subs + [sub])[m]) {
      assert m < |subs| ==> TrainedBy(c, learn, s, n, ranges[m], subs[m]);
    }
  }

  lemma BuiltMore(s: State, n: Pos, sel: Key -> nat, ranges: seq<Range>, subs: seq<Sub>, tts: seq<seq<nat>>, sub: Sub,
                  table: seq<nat>)
    requires |subs| < |ranges| && Built(s, n, sel, ranges[..|subs|], subs, tts)
    requires Served(s, n, sel, |subs|, ranges[|subs|], sub, table)
    ensures Built(s, n, sel, ranges[..|subs| + 1], subs + [sub], tts + [table])
  {
    var i := |subs|;
    forall m | 0 <= m < i + 1
      ensures Served(s, n, sel, m, ranges[..i + 1][m], (subs + [sub])[m], (tts + [table])[m])
    {
      assert m < i ==> Served(s, n, sel, m, ranges[..i][m], subs[m], tts[m]);
    }
  }
}
