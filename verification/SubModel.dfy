/** The second-layer model (xmodel.hh) and the functions that widen its error
    bounds (page_updater, page_update_func, default_update_func).

    The learned function is any function from keys to reals: what is proved
    here does not depend on how well it fits. */
module SubModel {
  import opened Keys
  import opened TTIter
  import opened Samplers

  function Trunc(r: real): int {
    if r >= 0.0 then r.Floor else -((-r).Floor)
  }

  /** Conversion to int; out of range it yields the value x86 does. */
  function ToInt(r: real): int {
    if INT_MIN <= Trunc(r) <= INT_MAX then Trunc(r) else INT_MIN
  }

  function PointPredict(ml: Key -> real, max: int, k: Key): nat {
    Max(Min(ToInt(ml(k)), max - 1), 0)
  }

  /** A predicted value y up to max - 1 is rounded down to a label; below zero it
      becomes 0, above max - 1 the cap, and what is out of the range of int
      becomes 0. */
  lemma PredictsLabel(ml: Key -> real, max: int, k: Key)
    requires max <= INT_MAX
    ensures var p, y := PointPredict(ml, max, k), ml(k);
      && (0.0 <= y <= (max - 1) as real ==> p as real <= y < p as real + 1.0)
      && (-2147483649.0 < y < 0.0 ==> p == 0)
      && ((max - 1) as real < y < 2147483648.0 ==> p == if max >= 1 then max - 1 else 0)
      && (y <= -2147483649.0 || y >= 2147483648.0 ==> p == 0)
  {}

  /** Arithmetic modulo 2^64, and the i64 with the same bits. */
  function Wrap(x: int): nat { x % U64 }

  function AsI64(x: nat): int
    requires x < U64
  {
    if x < U64 / 2 then x else x - U64
  }

  lemma WrapIs(x: int)
    ensures 0 <= x < U64 ==> Wrap(x) == x
    ensures -U64 <= x < 0 ==> Wrap(x) == x + U64
    ensures Wrap(x) < U64 && (-(U64 / 2) <= x < U64 / 2 ==> AsI64(Wrap(x)) == x)
  {}

  // ---------- pages of a range ----------

  lemma PageBounds(n: Pos, x: nat)
    ensures PageId(n, x) * n <= x < (PageId(n, x) + 1) * n
  {
    assert x == (x / n) * n + x % n;
    assert (x / n + 1) * n == (x / n) * n + n;
  }

  /** Page numbers rise with the label. */
  lemma PageMonotone(n: Pos, a: nat, b: nat)
    requires a <= b
    ensures PageId(n, a) <= PageId(n, b)
  {
    PageBounds(n, a);
    PageBounds(n, b);
    if PageId(n, b) < PageId(n, a) {
      Scale(PageId(n, b) + 1, PageId(n, a), n);
    }
  }

  /** Around prediction p, the bounds lo and hi reach the page of mark. */
  ghost predicate Covers(n: Pos, p: nat, lo: int, hi: int, mark: nat) {
    && p + hi >= 0
    && PageId(n, Max(0, p + lo)) <= PageId(n, mark) <= PageId(n, p + hi)
  }

  lemma CoversWider(n: Pos, p: nat, lo: int, hi: int, lo': int, hi': int, mark: nat)
    requires Covers(n, p, lo, hi, mark) && lo' <= lo && hi <= hi'
    ensures Covers(n, p, lo', hi', mark)
  {
    PageMonotone(n, Max(0, p + lo'), Max(0, p + lo));
    PageMonotone(n, p + hi, p + hi');
  }

  /** Bounds that reach both neighbouring predictions' page reach it from a
      prediction in between. */
  lemma CoversBetween(n: Pos, pa: nat, p: nat, pb: nat, lo: int, hi: int, a: nat, mark: nat, b: nat)
    requires pa <= p <= pb && Covers(n, pa, lo, hi, a) && Covers(n, pb, lo, hi, b)
    requires PageId(n, a) == PageId(n, mark) == PageId(n, b)
    ensures Covers(n, p, lo, hi, mark)
  {
    PageMonotone(n, Max(0, p + lo), Max(0, pb + lo));
    PageMonotone(n, pa + hi, p + hi);
  }

  // ---------- widening the bounds ----------

  datatype Updater = Plain | SamePage(n: Pos) | GapSearch(n: Pos)

  /** The label differs from the prediction by no more than the errors. */
  predicate Near(p: nat, lo: int, hi: int, mark: nat) {
    lo <= mark - p <= hi
  }

  /** What an updater promises of the new bounds for one sample. */
  ghost predicate Reaches(f: Updater, p: nat, lo: int, hi: int, mark: nat) {
    match f
    case Plain => Near(p, lo, hi, mark)
    case SamePage(n) => Covers(n, p, lo, hi, mark)
    case GapSearch(n) => Covers(n, p, lo, hi, mark)
  }

  /** Bounds as they are while training: they start at zero and only widen. */
  predicate Bounds(lo: int, hi: int) {
    INT_MIN <= lo <= 0 <= hi <= INT_MAX
  }

  lemma ReachesWider(f: Updater, p: nat, lo: int, hi: int, lo': int, hi': int, mark: nat)
    requires Reaches(f, p, lo, hi, mark) && lo' <= lo && hi <= hi'
    ensures Reaches(f, p, lo', hi', mark)
  {
    if f.SamePage? || f.GapSearch? {
      CoversWider(f.n, p, lo, hi, lo', hi', mark);
    }
  }

  /** default_update_func. */
  method DefaultUpdate(mark: nat, predict: nat, curMin: int, curMax: int) returns (lo: int, hi: int)
    requires mark <= INT_MAX && predict <= INT_MAX && Bounds(curMin, curMax)
    ensures Bounds(lo, hi) && lo <= curMin && curMax <= hi
    ensures predict + lo <= mark <= predict + hi
    ensures (lo == curMin || predict + lo == mark) && (hi == curMax || predict + hi == mark)
  {
    lo := Min(curMin, mark - predict);
    hi := Max(curMax, mark - predict);
  }

  /** page_update_func, and the page_updater of the YCSB server. */
  method SamePageUpdate(n: Pos, mark: nat, predict: nat, curMin: int, curMax: int) returns (lo: int, hi: int)
    requires mark <= INT_MAX && predict <= INT_MAX && Bounds(curMin, curMax)
    ensures Bounds(lo, hi) && lo <= curMin && curMax <= hi && Covers(n, predict, lo, hi, mark)
    ensures PageId(n, mark) == PageId(n, predict) ==> (lo, hi) == (curMin, curMax)
    ensures PageId(n, mark) != PageId(n, predict) ==> predict + lo <= mark <= predict + hi
    ensures (lo == curMin || predict + lo == mark) && (hi == curMax || predict + hi == mark)
  {
    if PageId(n, mark) == PageId(n, predict) {
      lo, hi := curMin, curMax;
    } else {
      lo := Min(curMin, mark - predict);
      hi := Max(curMax, mark - predict);
    }
    ReachesHere(n, mark, predict, lo, hi);
  }

  lemma ReachesHere(n: Pos, mark: nat, p: nat, lo: int, hi: int)
    requires lo <= 0 <= hi
    requires PageId(n, mark) == PageId(n, p) || (p + lo <= mark <= p + hi)
    ensures Covers(n, p, lo, hi, mark)
  {
    PageMonotone(n, Max(0, p + lo), p);
    PageMonotone(n, p, p + hi);
    if p + lo <= mark <= p + hi {
      PageMonotone(n, Max(0, p + lo), mark);
      PageMonotone(n, mark, p + hi);
    }
  }

  /** The nearest offset from p that lands on page t. */
  function Gap(n: Pos, p: nat, t: nat): int {
    if PageId(n, p) < t then t * n - p else if PageId(n, p) > t then t * n + n - 1 - p else 0
  }

  lemma PageAtLeast(n: Pos, x: nat, t: nat)
    ensures PageId(n, x) >= t <==> x >= t * n
    ensures PageId(n, x) <= t <==> x <= t * n + n - 1
  {
    PageBounds(n, x);
    if PageId(n, x) >= t {
      Scale(t, PageId(n, x), n);
    } else {
      Scale(PageId(n, x) + 1, t, n);
    }
    if PageId(n, x) <= t {
      Scale(PageId(n, x) + 1, t + 1, n);
    } else {
      Scale(t + 1, PageId(n, x), n);
    }
  }

  lemma GapSign(n: Pos, p: nat, t: nat)
    ensures PageId(n, p) < t <==> Gap(n, p, t) > 0
    ensures PageId(n, p) > t <==> Gap(n, p, t) < 0
    ensures p + Gap(n, p, t) >= 0
  {
    PageAtLeast(n, p, t);
  }

  /** Bounds around zero reach a page exactly when they include the gap to it. */
  lemma CoversGap(n: Pos, p: nat, lo: int, hi: int, mark: nat)
    requires lo <= 0 <= hi
    ensures Covers(n, p, lo, hi, mark) <==> lo <= Gap(n, p, PageId(n, mark)) <= hi
  {
    var t := PageId(n, mark);
    PageAtLeast(n, p, t);
    PageAtLeast(n, p + hi, t);
    PageAtLeast(n, Max(0, p + lo), t);
    PageMonotone(n, Max(0, p + lo), p);
    PageMonotone(n, p, p + hi);
  }

  /** Widening both bounds just enough to include the gap is sound and least:
      among all wider bounds, those that reach the page are those that are at
      least as wide. */
  lemma GapLeast(n: Pos, p: nat, mark: nat, curMin: int, curMax: int, lo: int, hi: int)
    requires curMin <= 0 <= curMax && lo <= curMin && curMax <= hi
    ensures var g := Gap(n, p, PageId(n, mark));
      Covers(n, p, lo, hi, mark) <==> lo <= Min(curMin, g) && Max(curMax, g) <= hi
  {
    CoversGap(n, p, lo, hi, mark);
  }

  /** The gap is no wider than the error. */
  lemma GapShort(n: Pos, p: nat, mark: nat)
    ensures var g := Gap(n, p, PageId(n, mark));
      if p <= mark then 0 <= g <= mark - p else mark - p <= g <= 0
  {
    PageBounds(n, mark);
    GapSign(n, p, PageId(n, mark));
    PageMonotone(n, Min(p, mark), Max(p, mark));
  }

  /** One step of the search: the offset has reached the page exactly when it is
      the gap, coming from zero. */
  lemma GapReached(n: Pos, p: nat, t: nat, gap: int)
    requires PageId(n, p) != t
    requires var g := Gap(n, p, t); 0 <= gap <= g || g <= gap <= 0
    ensures p + gap >= 0 && (PageId(n, p + gap) == t <==> gap == Gap(n, p, t))
  {
    GapSign(n, p, t);
    PageAtLeast(n, p + gap, t);
    PageAtLeast(n, p, t);
  }

  /** The already-covered test reads offsets modulo 2^64; it never claims too
      much. */
  lemma ShortcutSound(n: Pos, p: nat, mark: nat, curMin: int, curMax: int)
    requires mark <= INT_MAX && p <= INT_MAX && Bounds(curMin, curMax)
    requires PageId(n, Wrap(p + curMin)) <= PageId(n, mark) <= PageId(n, Wrap(p + curMax))
    ensures Covers(n, p, curMin, curMax, mark)
  {
    WrapIs(p + curMin);
    WrapIs(p + curMax);
    PageMonotone(n, 0, mark);
    PageBounds(n, 0);
    PageAtLeast(n, 0, 0);
  }

  /** page_updater: widen the bounds by the nearest offset that lands on the
      label's page.  The search takes as many steps as the gap is wide. */
  method PageUpdater(n: Pos, mark: nat, predict: nat, curMin: int, curMax: int)
    returns (lo: int, hi: int, ghost steps: nat)
    requires mark <= INT_MAX && predict <= INT_MAX && Bounds(curMin, curMax)
    ensures lo == Min(curMin, Gap(n, predict, PageId(n, mark)))
    ensures hi == Max(curMax, Gap(n, predict, PageId(n, mark)))
    ensures Bounds(lo, hi) && Covers(n, predict, lo, hi, mark)
    ensures steps <= if predict <= mark then mark - predict else predict - mark
  {
    steps := 0;
    ghost var g := Gap(n, predict, PageId(n, mark));
    GapShort(n, predict, mark);
    GapLeast(n, predict, mark, curMin, curMax, Min(curMin, g), Max(curMax, g));
    if PageId(n, predict) == PageId(n, mark) {
      return curMin, curMax, 0;
    }
    var targetId := PageId(n, mark);
    if PageId(n, Wrap(predict + curMin)) <= targetId && PageId(n, Wrap(predict + curMax)) >= targetId {
      ShortcutSound(n, predict, mark, curMin, curMax);
      CoversGap(n, predict, curMin, curMax, mark);
      return curMin, curMax, 0;
    }
    WrapIs(mark - predict);
    var err := AsI64(Wrap(mark - predict));
    var step := if err < 0 then -1 else 1;
    var gap := 0;
    GapReached(n, predict, targetId, gap);
    WrapIs(predict);
    while PageId(n, Wrap(predict + gap)) != targetId
      invariant 0 <= gap <= g || g <= gap <= 0
      invariant steps == if gap < 0 then -gap else gap
      invariant predict + gap >= 0 && Wrap(predict + gap) == predict + gap
      invariant PageId(n, predict + gap) == targetId <==> gap == g
      decreases if g < 0 then gap - g else g - gap
    {
      gap := gap + step;
      steps := steps + 1;
      GapReached(n, predict, targetId, gap);
      WrapIs(predict + gap);
    }
    lo := Min(curMin, gap);
    hi := Max(curMax, gap);
  }

  // ---------- the model ----------

  /** How far a sample pulls the bounds: the error, unless the page counts only
      and is the right one, or the nearest offset on the page. */
  function Pull(f: Updater, p: nat, mark: nat): int {
    match f
    case Plain => mark - p
    case SamePage(n) => if PageId(n, mark) == PageId(n, p) then 0 else mark - p
    case GapSearch(n) => Gap(n, p, PageId(n, mark))
  }

  /** What a pull is: none for a sample that is right already; no further than the
      error; and any bounds around zero that reach the sample contain it, except
      that an updater that looks for the same page only goes all the way to the
      label. */
  lemma PullIs(f: Updater, p: nat, mark: nat, lo: int, hi: int)
    requires lo <= 0 <= hi
    ensures f.Plain? ==> Pull(f, p, mark) == mark - p
    ensures f.SamePage? ==> Pull(f, p, mark) == if mark / f.n == p / f.n then 0 else mark - p
    ensures if p <= mark then 0 <= Pull(f, p, mark) <= mark - p else mark - p <= Pull(f, p, mark) <= 0
    ensures lo <= Pull(f, p, mark) <= hi ==> Reaches(f, p, lo, hi, mark)
    ensures !f.SamePage? && Reaches(f, p, lo, hi, mark) ==> lo <= Pull(f, p, mark) <= hi
  {
    match f
    case Plain =>
    case SamePage(n) =>
      if lo <= Pull(f, p, mark) <= hi {
        ReachesHere(n, mark, p, lo, hi);
      }
    case GapSearch(n) =>
      GapShort(n, p, mark);
      CoversGap(n, p, lo, hi, mark);
  }

  /** For page search and plain errors, widening the bounds to include the pull is
      least: among all wider bounds, those that reach the sample are those at least
      as wide; so a sample already reached changes nothing. */
  lemma PullLeast(f: Updater, p: nat, mark: nat, curMin: int, curMax: int, lo: int, hi: int)
    requires !f.SamePage? && curMin <= 0 <= curMax && lo <= curMin && curMax <= hi
    ensures var g := Pull(f, p, mark);
      && (Reaches(f, p, lo, hi, mark) <==> lo <= Min(curMin, g) && Max(curMax, g) <= hi)
      && (Reaches(f, p, curMin, curMax, mark) <==> Min(curMin, g) == curMin && Max(curMax, g) == curMax)
  {
    PullIs(f, p, mark, lo, hi);
    PullIs(f, p, mark, curMin, curMax);
  }

  /** One sample widens the bounds by just its pull. */
  method Update(f: Updater, mark: nat, predict: nat, curMin: int, curMax: int) returns (lo: int, hi: int)
    requires mark <= INT_MAX && predict <= INT_MAX && Bounds(curMin, curMax)
    ensures Bounds(lo, hi) && lo <= curMin && curMax <= hi && Reaches(f, predict, lo, hi, mark)
    ensures lo == Min(curMin, Pull(f, predict, mark)) && hi == Max(curMax, Pull(f, predict, mark))
  {
    match f
    case Plain =>
      lo, hi := DefaultUpdate(mark, predict, curMin, curMax);
    case SamePage(n) =>
      lo, hi := SamePageUpdate(n, mark, predict, curMin, curMax);
    case GapSearch(n) =>
      ghost var steps;
      lo, hi, steps := PageUpdater(n, mark, predict, curMin, curMax);
  }

  // With labels up to this, a prediction and an error still add up to an int.
  const LABEL_MAX := 0x3FFF_FFFF

  /** No label is beyond limit. */
  ghost predicate Small(xs: seq<Sample>, limit: nat) {
    forall i :: 0 <= i < |xs| ==> xs[i].mark <= limit
  }

  class XSubModel {
    var ml: Key -> real
    var errMin: int
    var errMax: int
    var max: int

    constructor (ml: Key -> real)
      ensures errMin == errMax == max == 0 && this.ml == ml
    {
      this.ml := ml;
      errMin, errMax, max := 0, 0, 0;
    }

    /** A model received from the server. */
    constructor Restored(ml: Key -> real, errMin: int, errMax: int, max: int)
      ensures this.ml == ml && this.errMin == errMin && this.errMax == errMax && this.max == max
    {
      this.ml, this.errMin, this.errMax, this.max := ml, errMin, errMax, max;
    }

    method GetPointPredict(k: Key) returns (p: nat)
      requires max <= INT_MAX
      ensures p == PointPredict(ml, max, k) && p <= Max(max - 1, 0)
      ensures var y := ml(k);
        && (0.0 <= y <= (max - 1) as real ==> p as real <= y < p as real + 1.0)
        && (-2147483649.0 < y < 0.0 ==> p == 0)
        && ((max - 1) as real < y < 2147483648.0 ==> p == if max >= 1 then max - 1 else 0)
        && (y <= -2147483649.0 || y >= 2147483648.0 ==> p == 0)
    {
      PredictsLabel(ml, max, k);
      var res := Min(ToInt(ml(k)), max - 1);
      p := Max(res, 0);
    }

    /** The range of labels a reader of the model searches: it is not empty, and
        holds exactly the labels up to max that differ from the prediction by no
        more than the errors.  No sum leaves the range of int. */
    method GetPredictRange(k: Key) returns (s: nat, e: int)
      requires Bounds(errMin, errMax) && 0 <= max && max + errMax <= INT_MAX
      ensures (s, e) == PredictRange(ml, errMin, errMax, max, k)
      ensures s <= e
      ensures forall l: nat {:trigger Near(PointPredict(ml, max, k), errMin, errMax, l)} ::
        s <= l <= e <==> l <= max && Near(PointPredict(ml, max, k), errMin, errMax, l)
      ensures var y := ml(k);
        && (0.0 <= y <= (max - 1) as real ==> s == Max(0, y.Floor + errMin) && e == Min(max, y.Floor + errMax))
        && (-2147483649.0 < y < 0.0 ==> s == 0 && e == Min(max, errMax))
        && ((max - 1) as real < y < 2147483648.0 && max >= 1 ==>
            s == Max(0, max - 1 + errMin) && e == Min(max, max - 1 + errMax))
    {
      var p := GetPointPredict(k);
      assert INT_MIN <= p + errMin && p + errMax <= INT_MAX;
      s := Max(0, p + errMin);
      e := Min(max, p + errMax);
    }

    /** trained is whatever the training made of the samples. */
    method TrainMl(trained: Key -> real, xs: seq<Sample>)
      requires Small(xs, INT_MAX)
      modifies this`ml, this`max
      ensures ml == trained && max == if xs == [] then old(max) else xs[|xs| - 1].mark
    {
      ml := trained;
      if xs != [] {
        max := xs[|xs| - 1].mark;
      }
    }

    /** Widen the bounds until they reach every sample, and no further: each bound
        is the old one or as far as some sample pulls it.  No error is larger than
        the largest label. */
    method CalError(xs: seq<Sample>, f: Updater, ghost limit: nat)
      requires limit <= INT_MAX && Small(xs, limit) && max <= limit
      requires 0 - limit <= errMin <= 0 <= errMax <= limit
      modifies this`errMin, this`errMax
      ensures 0 - limit <= errMin <= old(errMin) && old(errMax) <= errMax <= limit
      ensures AllReached(f, ml, max, errMin, errMax, xs)
      ensures Tight(f, ml, max, old(errMin), old(errMax), errMin, errMax, xs)
    {
      var i := 0;
      while i < |xs|
        invariant i <= |xs| && 0 - limit <= errMin <= old(errMin) && old(errMax) <= errMax <= limit
        invariant AllReached(f, ml, max, errMin, errMax, xs[..i])
        invariant Tight(f, ml, max, old(errMin), old(errMax), errMin, errMax, xs[..i])
      {
        var p := GetPointPredict(xs[i].key);
        ghost var lo, hi := errMin, errMax;
        errMin, errMax := Update(f, xs[i].mark, p, errMin, errMax);
        PullIs(f, p, xs[i].mark, lo, hi);
        ReachedMore(f, ml, max, lo, hi, errMin, errMax, xs, i);
        TightMore(f, ml, max, old(errMin), old(errMax), lo, hi, errMin, errMax, xs, i);
        i := i + 1;
      }
      assert xs[..i] == xs;
    }
  }

  function PredictRange(ml: Key -> real, lo: int, hi: int, max: int, k: Key): (nat, int) {
    (Max(0, PointPredict(ml, max, k) + lo), Min(max, PointPredict(ml, max, k) + hi))
  }

  /** The bounds reach sample x from the prediction for its key. */
  ghost predicate Hit(f: Updater, ml: Key -> real, max: int, lo: int, hi: int, x: Sample) {
    Reaches(f, PointPredict(ml, max, x.key), lo, hi, x.mark)
  }

  ghost predicate AllReached(f: Updater, ml: Key -> real, max: int, lo: int, hi: int, xs: seq<Sample>) {
    forall i {:trigger Hit(f, ml, max, lo, hi, xs[i])} :: 0 <= i < |xs| ==> Hit(f, ml, max, lo, hi, xs[i])
  }

  function PullOf(f: Updater, ml: Key -> real, max: int, x: Sample): int {
    Pull(f, PointPredict(ml, max, x.key), x.mark)
  }

  /** Starting from lo0 and hi0, each of the bounds lo and hi is where it was or
      where some sample pulls it. */
  ghost predicate Tight(f: Updater, ml: Key -> real, max: int, lo0: int, hi0: int, lo: int, hi: int, xs: seq<Sample>) {
    && (lo == lo0 || exists x :: x in xs && PullOf(f, ml, max, x) == lo)
    && (hi == hi0 || exists x :: x in xs && PullOf(f, ml, max, x) == hi)
  }

  lemma TightMore(f: Updater, ml: Key -> real, max: int, lo0: int, hi0: int, lo: int, hi: int, lo': int, hi': int,
                  xs: seq<Sample>, i: nat)
    requires i < |xs| && Tight(f, ml, max, lo0, hi0, lo, hi, xs[..i])
    requires lo' == Min(lo, PullOf(f, ml, max, xs[i])) && hi' == Max(hi, PullOf(f, ml, max, xs[i]))
    ensures Tight(f, ml, max, lo0, hi0, lo', hi', xs[..i + 1])
  {
    assert forall x :: x in xs[..i] ==> x in xs[..i + 1];
    assert xs[i] in xs[..i + 1];
  }

  /** Bounds that a training from zero leaves are the least around zero that reach
      all samples, for page search and plain errors. */
  lemma TightIsLeast(f: Updater, ml: Key -> real, max: int, lo: int, hi: int, xs: seq<Sample>, a: int, b: int)
    requires Tight(f, ml, max, 0, 0, lo, hi, xs) && !f.SamePage?
    requires a <= 0 <= b && AllReached(f, ml, max, a, b, xs)
    ensures a <= lo && hi <= b
  {
    forall x | x in xs ensures a <= PullOf(f, ml, max, x) <= b {
      var i :| 0 <= i < |xs| && xs[i] == x;
      assert Hit(f, ml, max, a, b, xs[i]);
      PullIs(f, PointPredict(ml, max, x.key), x.mark, a, b);
    }
  }

  /** Where only the page counts, each bound that a training from zero leaves is
      zero or the error of a sample that is predicted on another page. */
  lemma TightErrors(f: Updater, ml: Key -> real, max: int, lo: int, hi: int, xs: seq<Sample>)
    requires Tight(f, ml, max, 0, 0, lo, hi, xs) && f.SamePage?
    ensures lo == 0 || exists x {:trigger x in xs} ::
      x in xs && lo == x.mark - PointPredict(ml, max, x.key) && x.mark / f.n != PointPredict(ml, max, x.key) / f.n
    ensures hi == 0 || exists x {:trigger x in xs} ::
      x in xs && hi == x.mark - PointPredict(ml, max, x.key) && x.mark / f.n != PointPredict(ml, max, x.key) / f.n
  {
    if lo != 0 {
      var x :| x in xs && PullOf(f, ml, max, x) == lo;
      assert x in xs;
    }
    if hi != 0 {
      var x :| x in xs && PullOf(f, ml, max, x) == hi;
      assert x in xs;
    }
  }

  lemma ReachedMore(f: Updater, ml: Key -> real, max: int, lo: int, hi: int, lo': int, hi': int, xs: seq<Sample>,
                    i: nat)
    requires i < |xs| && lo' <= lo && hi <= hi'
    requires AllReached(f, ml, max, lo, hi, xs[..i])
    requires Hit(f, ml, max, lo', hi', xs[i])
    ensures AllReached(f, ml, max, lo', hi', xs[..i + 1])
  {
    forall j | 0 <= j < i + 1 ensures Hit(f, ml, max, lo', hi', xs[j]) {
      if j < i {
        assert Hit(f, ml, max, lo, hi, xs[..i][j]);
        ReachesWider(f, PointPredict(ml, max, xs[j].key), lo, hi, lo', hi', xs[j].mark);
      }
    }
  }
}
