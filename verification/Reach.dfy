/** What a trained second-layer model is good for: when the pages of its
    predicted range include the page of every key of its trainer. */
module Reach {
  import opened Keys
  import opened TTIter
  import opened Samplers
  import opened SubModel

  /** The label's page is among the pages of the predicted range. */
  ghost predicate InPages(n: Pos, ml: Key -> real, lo: int, hi: int, max: int, x: Sample) {
    var (s, e) := PredictRange(ml, lo, hi, max, x.key);
    e >= 0 && PageId(n, s) <= PageId(n, x.mark) <= PageId(n, e)
  }

  ghost predicate AllInPages(n: Pos, ml: Key -> real, lo: int, hi: int, max: int, xs: seq<Sample>) {
    forall i {:trigger InPages(n, ml, lo, hi, max, xs[i])} :: 0 <= i < |xs| ==> InPages(n, ml, lo, hi, max, xs[i])
  }

  /** The updaters that work on pages. */
  predicate PageWise(f: Updater, n: Pos) {
    f == SamePage(n) || f == GapSearch(n)
  }

  /** Bounds that reach a label's page leave only the cap at max to doubt. */
  lemma ReachedInPages(n: Pos, ml: Key -> real, lo: int, hi: int, max: nat, x: Sample)
    requires Covers(n, PointPredict(ml, max, x.key), lo, hi, x.mark)
    ensures InPages(n, ml, lo, hi, max, x) <==> PageId(n, x.mark) <= PageId(n, max)
  {
    var p := PointPredict(ml, max, x.key);
    PageMonotone(n, Min(max, p + hi), max);
  }

  /** With max the label of the last sample that survived the shrinking, the
      training set is covered exactly when max is on the page of the last
      sample, whatever was learned. */
  lemma ShrinkExact(n: Pos, f: Updater, ml: Key -> real, lo: int, hi: int, max: nat, xs: seq<Sample>)
    requires PageWise(f, n) && AllReached(f, ml, max, lo, hi, xs) && Ascends(xs) && xs != []
    ensures AllInPages(n, ml, lo, hi, max, xs) <==> PageId(n, xs[|xs| - 1].mark) <= PageId(n, max)
  {
    var last := xs[|xs| - 1];
    forall i | 0 <= i < |xs|
      ensures InPages(n, ml, lo, hi, max, xs[i]) <==> PageId(n, xs[i].mark) <= PageId(n, max)
      ensures PageId(n, xs[i].mark) <= PageId(n, last.mark)
    {
      assert Hit(f, ml, max, lo, hi, xs[i]);
      ReachedInPages(n, ml, lo, hi, max, xs[i]);
      PageMonotone(n, xs[i].mark, last.mark);
    }
  }

  /** The cap that train_ml takes from the shrunken training set. */
  function CapOf(kept: seq<Sample>): nat {
    if kept == [] then 0 else kept[|kept| - 1].mark
  }

  function LastStep(m: nat, step: Pos): nat
    requires m > 0
  {
    (m - 1) / step * step
  }

  lemma CapStep(xs: seq<Sample>, step: Pos)
    requires xs != []
    ensures LastStep(|xs|, step) < |xs|
    ensures CapOf(Kept(EveryStep(step), xs)) == xs[LastStep(|xs|, step)].mark
  {
    StepKeeps(xs, step, |xs|);
    SteppedLast(xs, step, |xs|);
  }

  /** Shrinking by a step sampler is harmless exactly when the last sample it
      keeps is on the last sample's page. */
  lemma StepShrinkExact(n: Pos, f: Updater, ml: Key -> real, lo: int, hi: int, xs: seq<Sample>, step: Pos)
    requires PageWise(f, n) && Ascends(xs) && xs != []
    requires AllReached(f, ml, CapOf(Kept(EveryStep(step), xs)), lo, hi, xs)
    ensures LastStep(|xs|, step) < |xs|
    ensures AllInPages(n, ml, lo, hi, CapOf(Kept(EveryStep(step), xs)), xs)
       <==> PageId(n, xs[LastStep(|xs|, step)].mark) == PageId(n, xs[|xs| - 1].mark)
  {
    CapStep(xs, step);
    ShrinkExact(n, f, ml, lo, hi, CapOf(Kept(EveryStep(step), xs)), xs);
    PageMonotone(n, xs[LastStep(|xs|, step)].mark, xs[|xs| - 1].mark);
  }

  lemma LastStepOne(m: nat)
    requires m > 0
    ensures LastStep(m, 1) == m - 1
  {}

  /** A step of one loses nothing. */
  lemma StepOneReaches(n: Pos, f: Updater, ml: Key -> real, lo: int, hi: int, xs: seq<Sample>)
    requires PageWise(f, n) && Ascends(xs)
    requires AllReached(f, ml, CapOf(Kept(EveryStep(1), xs)), lo, hi, xs)
    ensures AllInPages(n, ml, lo, hi, CapOf(Kept(EveryStep(1), xs)), xs)
  {
    if xs != [] {
      StepShrinkExact(n, f, ml, lo, hi, xs, 1);
      LastStepOne(|xs|);
    }
  }

  // ---------- sampled pages ----------

  /** On these keys the learned function does not fall, and stays in the range
      of int. */
  ghost predicate Monotone(ml: Key -> real, xs: seq<Sample>) {
    && (forall i {:trigger xs[i]} :: 0 <= i < |xs| ==> INT_MIN <= Trunc(ml(xs[i].key)) <= INT_MAX)
    && (forall i, j :: 0 <= i <= j < |xs| ==> ml(xs[i].key) <= ml(xs[j].key))
  }

  lemma TruncMonotone(a: real, b: real)
    requires a <= b
    ensures Trunc(a) <= Trunc(b)
  {}

  lemma PredictMonotone(ml: Key -> real, max: int, xs: seq<Sample>, i: nat, j: nat)
    requires Monotone(ml, xs) && i <= j < |xs|
    ensures PointPredict(ml, max, xs[i].key) <= PointPredict(ml, max, xs[j].key)
  {
    TruncMonotone(ml(xs[i].key), ml(xs[j].key));
  }

  lemma EndsLast(n: Pos, xs: seq<Sample>)
    requires xs != []
    ensures Ends(n, xs, |xs|) != []
  {}

  lemma ReachedIn(n: Pos, f: Updater, ml: Key -> real, max: int, lo: int, hi: int, xs: seq<Sample>, x: Sample)
    requires PageWise(f, n) && AllReached(f, ml, max, lo, hi, xs) && x in xs
    ensures Covers(n, PointPredict(ml, max, x.key), lo, hi, x.mark)
  {
    var i :| 0 <= i < |xs| && xs[i] == x;
    assert Hit(f, ml, max, lo, hi, xs[i]);
  }

  /** With a monotone model, bounds trained on the first and last key of each
      page reach every key between them: training on sampled pages is sound as
      long as the cap is on the last page. */
  lemma PageSamplingSound(n: Pos, f: Updater, ml: Key -> real, lo: int, hi: int, max: nat, xs: seq<Sample>)
    requires PageWise(f, n) && Ascends(xs) && Monotone(ml, xs) && xs != []
    requires AllReached(f, ml, max, lo, hi, Kept(PageEnds(n), xs))
    ensures AllInPages(n, ml, lo, hi, max, xs) <==> PageId(n, xs[|xs| - 1].mark) <= PageId(n, max)
  {
    PageEndsKept(n, xs);
    forall i | 0 <= i < |xs|
      ensures InPages(n, ml, lo, hi, max, xs[i]) <==> PageId(n, xs[i].mark) <= PageId(n, max)
      ensures PageId(n, xs[i].mark) <= PageId(n, xs[|xs| - 1].mark)
    {
      SampledReach(n, f, ml, lo, hi, max, xs, i);
      ReachedInPages(n, ml, lo, hi, max, xs[i]);
      PageMonotone(n, xs[i].mark, xs[|xs| - 1].mark);
    }
  }

  lemma SampledReach(n: Pos, f: Updater, ml: Key -> real, lo: int, hi: int, max: nat, xs: seq<Sample>, i: nat)
    requires PageWise(f, n) && Ascends(xs) && Monotone(ml, xs) && i < |xs|
    requires AllReached(f, ml, max, lo, hi, Ends(n, xs, |xs|))
    ensures Covers(n, PointPredict(ml, max, xs[i].key), lo, hi, xs[i].mark)
  {
    var a, b := Bracketed(n, xs, i);
    ReachedIn(n, f, ml, max, lo, hi, Ends(n, xs, |xs|), xs[a]);
    ReachedIn(n, f, ml, max, lo, hi, Ends(n, xs, |xs|), xs[b]);
    PredictMonotone(ml, max, xs, a, i);
    PredictMonotone(ml, max, xs, i, b);
    CoversBetween(n, PointPredict(ml, max, xs[a].key), PointPredict(ml, max, xs[i].key),
                  PointPredict(ml, max, xs[b].key), lo, hi, xs[a].mark, xs[i].mark, xs[b].mark);
  }

  /** Sampled pages, then shrunk by a step: every key of the trainer is in reach
      exactly when the last page end that the step keeps is on the last page. */
  lemma SampledAndShrunk(n: Pos, f: Updater, ml: Key -> real, lo: int, hi: int, xs: seq<Sample>, step: Pos)
    requires PageWise(f, n) && Ascends(xs) && Monotone(ml, xs) && xs != []
    requires AllReached(f, ml, CapOf(Kept(EveryStep(step), Kept(PageEnds(n), xs))), lo, hi, Kept(PageEnds(n), xs))
    ensures var ends := Kept(PageEnds(n), xs);
      && ends != [] && LastStep(|ends|, step) < |ends|
      && (AllInPages(n, ml, lo, hi, CapOf(Kept(EveryStep(step), ends)), xs)
          <==> PageId(n, xs[|xs| - 1].mark) <= PageId(n, ends[LastStep(|ends|, step)].mark))
  {
    var ends := Kept(PageEnds(n), xs);
    PageEndsKept(n, xs);
    EndsLast(n, xs);
    CapStep(ends, step);
    PageSamplingSound(n, f, ml, lo, hi, CapOf(Kept(EveryStep(step), ends)), xs);
  }
}
