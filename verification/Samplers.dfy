/** What the trainer keeps of its training set: everything, every step-th
    sample (step_sampler.hh), or the ends of each page (page_sampler.hh). */
module Samplers {
  import opened Keys
  import opened TTIter

  datatype Sample = Sample(key: Key, mark: nat)

  datatype Kind = EveryKey | EveryStep(step: nat) | PageEnds(n: Pos)

  /** What a sampler remembers between samples. */
  datatype Memo = Memo(count: nat, low: Option<Sample>, high: Option<Sample>)

  const FRESH := Memo(0, None, None)

  /** The pair a page sampler has been holding back. */
  function Held(n: Pos, m: Memo): seq<Sample> {
    (if m.low.Some? then [m.low.value] else [])
    + if m.high.Some? && (m.low.Some? ==> Offset(n, m.low.value.mark) != Offset(n, m.high.value.mark))
      then [m.high.value] else []
  }

  /** What one sample makes the sampler remember. */
  function Recall(kind: Kind, m: Memo, x: Sample): Memo {
    match kind
    case EveryKey => m
    case EveryStep(step) => m.(count := if m.count + 1 == step then 0 else m.count + 1)
    case PageEnds(n) =>
      if m.low.None? then m.(low := Some(x))
      else if PageId(n, x.mark) != PageId(n, m.low.value.mark) then m.(low := Some(x), high := None)
      else m.(low := if m.low.value.key > x.key then Some(x) else m.low,
              high := if m.high.None? || x.key > m.high.value.key then Some(x) else m.high)
  }

  /** What one sample makes it emit. */
  function Emit(kind: Kind, m: Memo, x: Sample): seq<Sample> {
    match kind
    case EveryKey => [x]
    case EveryStep(step) => if m.count == 0 then [x] else []
    case PageEnds(n) => if m.low.Some? && PageId(n, x.mark) != PageId(n, m.low.value.mark) then Held(n, m) else []
  }

  /** The memory after the first m samples, and what they made it emit. */
  function MemoAt(kind: Kind, xs: seq<Sample>, m: nat): Memo
    requires m <= |xs|
  {
    if m == 0 then FRESH else Recall(kind, MemoAt(kind, xs, m - 1), xs[m - 1])
  }

  function OutAt(kind: Kind, xs: seq<Sample>, m: nat): seq<Sample>
    requires m <= |xs|
  {
    if m == 0 then [] else OutAt(kind, xs, m - 1) + Emit(kind, MemoAt(kind, xs, m - 1), xs[m - 1])
  }

  function Flush(kind: Kind, m: Memo): seq<Sample> {
    if kind.PageEnds? then Held(kind.n, m) else []
  }

  /** All that is kept of xs. */
  function Kept(kind: Kind, xs: seq<Sample>): seq<Sample> {
    OutAt(kind, xs, |xs|) + Flush(kind, MemoAt(kind, xs, |xs|))
  }

  lemma {:induction false} FedPrefix(kind: Kind, xs: seq<Sample>, ys: seq<Sample>, m: nat)
    requires m <= |xs|
    ensures MemoAt(kind, xs + ys, m) == MemoAt(kind, xs, m)
    ensures OutAt(kind, xs + ys, m) == OutAt(kind, xs, m)
  {
    if m > 0 {
      FedPrefix(kind, xs, ys, m - 1);
      assert (xs + ys)[m - 1] == xs[m - 1];
    }
  }

  class Sampler {
    const kind: Kind
    var curCount: nat
    var minInPage: Option<Sample>
    var maxInPage: Option<Sample>
    ghost var fed: seq<Sample>

    constructor (kind: Kind)
      ensures Valid([]) && this.kind == kind && fed == []
    {
      this.kind := kind;
      curCount, minInPage, maxInPage, fed := 0, None, None, [];
    }

    function Memory(): Memo
      reads this
    {
      Memo(curCount, minInPage, maxInPage)
    }

    /** After the samples fed so far, out has been emitted. */
    ghost predicate Valid(out: seq<Sample>)
      reads this
    {
      MemoAt(kind, fed, |fed|) == Memory() && OutAt(kind, fed, |fed|) == out
    }

    method AddTo(x: Sample, set0: seq<Sample>) returns (set1: seq<Sample>)
      requires Valid(set0)
      modifies this
      ensures fed == old(fed) + [x] && Valid(set1)
    {
      FedPrefix(kind, fed, [x], |fed|);
      fed := fed + [x];
      set1 := Take(x, set0);
    }

    method Take(x: Sample, set0: seq<Sample>) returns (set1: seq<Sample>)
      modifies this`curCount, this`minInPage, this`maxInPage
      ensures Memory() == Recall(kind, old(Memory()), x)
      ensures set1 == set0 + Emit(kind, old(Memory()), x)
    {
      set1 := set0;
      match kind
      case EveryKey =>
        set1 := set1 + [x];
      case EveryStep(step) =>
        if curCount == 0 {
          set1 := set1 + [x];
        }
        curCount := curCount + 1;
        if curCount == step {
          curCount := 0;
        }
      case PageEnds(n) =>
        if minInPage.None? {
          minInPage := Some(x);
        } else if PageId(n, x.mark) != PageId(n, minInPage.value.mark) {
          set1 := AddCur(set1);
          minInPage := Some(x);
          maxInPage := None;
        } else {
          if maxInPage.None? || x.key > maxInPage.value.key {
            maxInPage := Some(x);
          }
          if minInPage.value.key > x.key {
            minInPage := Some(x);
          }
        }
    }

    method AddCur(set0: seq<Sample>) returns (set1: seq<Sample>)
      requires kind.PageEnds?
      ensures set1 == set0 + Held(kind.n, Memory())
    {
      set1 := set0;
      if minInPage.Some? {
        set1 := set1 + [minInPage.value];
      }
      if maxInPage.Some? {
        if minInPage.None? || Offset(kind.n, minInPage.value.mark) != Offset(kind.n, maxInPage.value.mark) {
          set1 := set1 + [maxInPage.value];
        }
      }
    }

    method Finalize(set0: seq<Sample>) returns (set1: seq<Sample>)
      requires Valid(set0)
      ensures set1 == Kept(kind, fed)
    {
      set1 := set0;
      if kind.PageEnds? {
        set1 := AddCur(set1);
      }
    }
  }

  // ---------- every key, every step ----------

  lemma {:induction false} EveryKeyKeeps(xs: seq<Sample>, m: nat)
    requires m <= |xs|
    ensures OutAt(EveryKey, xs, m) == xs[..m]
    ensures m == |xs| ==> Kept(EveryKey, xs) == xs
  {
    if m > 0 {
      EveryKeyKeeps(xs, m - 1);
    }
  }

  /** Where the samples that a step sampler keeps come from. */
  function Stepped(xs: seq<Sample>, step: Pos, m: nat): seq<Sample>
    requires m <= |xs|
  {
    if m == 0 then [] else Stepped(xs, step, m - 1) + if (m - 1) % step == 0 then [xs[m - 1]] else []
  }

  lemma StepCount(m: nat, step: Pos)
    requires m > 0
    ensures m % step == if (m - 1) % step + 1 == step then 0 else (m - 1) % step + 1
  {
    var q, r := (m - 1) / step, (m - 1) % step;
    assert m - 1 == q * step + r;
    if r + 1 == step {
      assert m == (q + 1) * step;
      DivOf(m, q + 1, 0, step);
    } else {
      DivOf(m, q, r + 1, step);
    }
  }

  lemma DivOf(x: nat, q: nat, r: nat, n: Pos)
    requires x == q * n + r && r < n
    ensures x / n == q && x % n == r
  {
    LogicRoundTrip(n, q, r);
  }

  lemma {:induction false} StepKeeps(xs: seq<Sample>, step: Pos, m: nat)
    requires m <= |xs|
    ensures MemoAt(EveryStep(step), xs, m) == FRESH.(count := m % step)
    ensures OutAt(EveryStep(step), xs, m) == Stepped(xs, step, m)
    ensures m == |xs| ==> Kept(EveryStep(step), xs) == Stepped(xs, step, m)
  {
    if m > 0 {
      StepKeeps(xs, step, m - 1);
      StepCount(m, step);
    }
  }

  /** A step sampler keeps the samples at the multiples of its step; the last
      one kept is the last such. */
  lemma {:induction false} SteppedLast(xs: seq<Sample>, step: Pos, m: nat)
    requires 0 < m <= |xs|
    ensures var s := Stepped(xs, step, m);
      s != [] && (m - 1) / step * step < m && s[|s| - 1] == xs[(m - 1) / step * step]
  {
    var q, r := (m - 1) / step, (m - 1) % step;
    assert m - 1 == q * step + r;
    if r != 0 {
      assert m - 2 == q * step + (r - 1);
      DivOf(m - 2, q, r - 1, step);
      SteppedLast(xs, step, m - 1);
    }
  }

  lemma {:induction false} StepOneKeeps(xs: seq<Sample>, m: nat)
    requires m <= |xs|
    ensures Stepped(xs, 1, m) == xs[..m]
  {
    if m > 0 {
      StepOneKeeps(xs, m - 1);
    }
  }

  // ---------- page ends ----------

  /** Keys and labels rise, as the sorted iterator yields them. */
  ghost predicate Ascends(xs: seq<Sample>) {
    forall i, j :: 0 <= i < j < |xs| ==> xs[i].key < xs[j].key && xs[i].mark < xs[j].mark
  }

  predicate Opens(n: Pos, xs: seq<Sample>, i: nat)
    requires i < |xs|
  {
    i == 0 || PageId(n, xs[i - 1].mark) != PageId(n, xs[i].mark)
  }

  predicate Closes(n: Pos, xs: seq<Sample>, i: nat)
    requires i < |xs|
  {
    i + 1 == |xs| || PageId(n, xs[i].mark) != PageId(n, xs[i + 1].mark)
  }

  /** The first and the last sample of every page, among the first m. */
  function Ends(n: Pos, xs: seq<Sample>, m: nat): seq<Sample>
    requires m <= |xs|
  {
    if m == 0 then []
    else Ends(n, xs, m - 1) + if Opens(n, xs, m - 1) || Closes(n, xs, m - 1) then [xs[m - 1]] else []
  }

  /** Samples g to m are on one page, which starts at g. */
  ghost predicate Group(n: Pos, xs: seq<Sample>, g: nat, m: nat) {
    && g < m <= |xs| && Opens(n, xs, g)
    && forall i :: g <= i < m ==> PageId(n, xs[i].mark) == PageId(n, xs[g].mark)
  }

  function GroupEnds(xs: seq<Sample>, g: nat, m: nat): seq<Sample>
    requires g < m <= |xs|
  {
    [xs[g]] + if g < m - 1 then [xs[m - 1]] else []
  }

  lemma {:induction false} EndsInside(n: Pos, xs: seq<Sample>, g: nat, m: nat, i: nat)
    requires Group(n, xs, g, m) && g < i < m
    ensures Ends(n, xs, i) == Ends(n, xs, g) + [xs[g]]
  {
    if i > g + 1 {
      EndsInside(n, xs, g, m, i - 1);
    }
  }

  lemma EndsGroup(n: Pos, xs: seq<Sample>, g: nat, m: nat)
    requires Group(n, xs, g, m) && Closes(n, xs, m - 1)
    ensures Ends(n, xs, m) == Ends(n, xs, g) + GroupEnds(xs, g, m)
  {
    if g < m - 1 {
      EndsInside(n, xs, g, m, m - 1);
    }
  }

  lemma SamePage(n: Pos, a: nat, b: nat)
    requires PageId(n, a) == PageId(n, b) && a != b
    ensures Offset(n, a) != Offset(n, b)
  {
    assert a == (a / n) * n + a % n;
    assert b == (b / n) * n + b % n;
  }

  // ----- what is kept of any feed -----

  /** Where the smallest, and the largest, key of samples g to m is. */
  function SmallestAt(xs: seq<Sample>, g: nat, m: nat): (i: nat)
    requires g < m <= |xs|
    ensures g <= i < m && forall j :: g <= j < m ==> xs[i].key <= xs[j].key
  {
    if m == g + 1 then g
    else
      var i := SmallestAt(xs, g, m - 1);
      if xs[m - 1].key < xs[i].key then m - 1 else i
  }

  function LargestAt(xs: seq<Sample>, g: nat, m: nat): (i: nat)
    requires g < m <= |xs|
    ensures g <= i < m && forall j :: g <= j < m ==> xs[j].key <= xs[i].key
  {
    if m == g + 1 then g
    else
      var i := LargestAt(xs, g, m - 1);
      if xs[m - 1].key > xs[i].key then m - 1 else i
  }

  /** What the page sampler remembers of samples g to m of a page: the smallest
      of all, and the largest of those behind the first. */
  function BlockMemo(xs: seq<Sample>, g: nat, m: nat): Memo
    requires g < m <= |xs|
  {
    Memo(0, Some(xs[SmallestAt(xs, g, m)]), if g + 1 < m then Some(xs[LargestAt(xs, g + 1, m)]) else None)
  }

  /** Where the run of samples on the page of sample m - 1 starts. */
  function StartAt(n: Pos, xs: seq<Sample>, m: nat): (g: nat)
    requires 0 < m <= |xs|
    ensures g < m
  {
    if Opens(n, xs, m - 1) then m - 1 else StartAt(n, xs, m - 1)
  }

  lemma {:induction false} StartGroup(n: Pos, xs: seq<Sample>, m: nat)
    requires 0 < m <= |xs|
    ensures Group(n, xs, StartAt(n, xs, m), m)
  {
    if !Opens(n, xs, m - 1) {
      StartGroup(n, xs, m - 1);
    }
  }

  lemma {:induction false} StartOf(n: Pos, xs: seq<Sample>, g: nat, m: nat)
    requires Group(n, xs, g, m)
    ensures StartAt(n, xs, m) == g
  {
    if g < m - 1 {
      assert PageId(n, xs[m - 2].mark) == PageId(n, xs[m - 1].mark);
      StartOf(n, xs, g, m - 1);
    }
  }

  /** What is kept of the runs that make up the first m samples. */
  function Blocks(n: Pos, xs: seq<Sample>, m: nat): seq<Sample>
    requires m <= |xs|
  {
    if m == 0 then []
    else
      var g := StartAt(n, xs, m);
      Blocks(n, xs, g) + Held(n, BlockMemo(xs, g, m))
  }

  /** Sample m - 1 joins the run, or opens the next one. */
  lemma BlockJoins(n: Pos, xs: seq<Sample>, g: nat, m: nat)
    requires 1 < m <= |xs| && Group(n, xs, g, m - 1) && !Opens(n, xs, m - 1)
    ensures Recall(PageEnds(n), BlockMemo(xs, g, m - 1), xs[m - 1]) == BlockMemo(xs, g, m)
    ensures Emit(PageEnds(n), BlockMemo(xs, g, m - 1), xs[m - 1]) == []
  {
    RunPage(n, xs, g, m - 1);
  }

  lemma BlockOpens(n: Pos, xs: seq<Sample>, g: nat, m: nat)
    requires 1 < m <= |xs| && Group(n, xs, g, m - 1) && Opens(n, xs, m - 1)
    ensures Recall(PageEnds(n), BlockMemo(xs, g, m - 1), xs[m - 1]) == BlockMemo(xs, m - 1, m)
    ensures Emit(PageEnds(n), BlockMemo(xs, g, m - 1), xs[m - 1]) == Held(n, BlockMemo(xs, g, m - 1))
  {
    RunPage(n, xs, g, m - 1);
  }

  /** The remembered smallest sample is on the page of the run. */
  lemma RunPage(n: Pos, xs: seq<Sample>, g: nat, m: nat)
    requires Group(n, xs, g, m)
    ensures PageId(n, BlockMemo(xs, g, m).low.value.mark) == PageId(n, xs[m - 1].mark)
  {}

  lemma {:induction false} FedBlocks(n: Pos, xs: seq<Sample>, m: nat)
    requires 0 < m <= |xs|
    ensures MemoAt(PageEnds(n), xs, m) == BlockMemo(xs, StartAt(n, xs, m), m)
    ensures OutAt(PageEnds(n), xs, m) == Blocks(n, xs, StartAt(n, xs, m))
  {
    if m == 1 {
      assert MemoAt(PageEnds(n), xs, 0) == FRESH;
    } else {
      FedBlocks(n, xs, m - 1);
      StartGroup(n, xs, m - 1);
      if Opens(n, xs, m - 1) {
        BlockOpens(n, xs, StartAt(n, xs, m - 1), m);
      } else {
        BlockJoins(n, xs, StartAt(n, xs, m - 1), m);
      }
    }
  }

  /** Of any feed, the page sampler keeps, run by run of samples on one page, the
      smallest sample and the largest of those behind the first. */
  lemma KeptBlocks(n: Pos, xs: seq<Sample>)
    ensures Kept(PageEnds(n), xs) == Blocks(n, xs, |xs|)
  {
    if xs != [] {
      FedBlocks(n, xs, |xs|);
    }
  }

  // ----- when the largest is kept -----

  /** No key and no label occurs twice. */
  ghost predicate Unrepeated(xs: seq<Sample>) {
    forall i, j :: 0 <= i < j < |xs| ==> xs[i].key != xs[j].key && xs[i].mark != xs[j].mark
  }

  /** Samples g to m are all of a run on one page. */
  ghost predicate Block(n: Pos, xs: seq<Sample>, g: nat, m: nat) {
    Group(n, xs, g, m) && Closes(n, xs, m - 1)
  }

  /** Sample i is kept when its run from g to m ends. */
  ghost predicate Chosen(n: Pos, xs: seq<Sample>, g: nat, m: nat, i: nat) {
    && Block(n, xs, g, m) && g <= i < m
    && (i == SmallestAt(xs, g, m) || (g + 1 < m && i == LargestAt(xs, g + 1, m)))
  }

  lemma HeldChosen(n: Pos, xs: seq<Sample>, g: nat, m: nat, i: nat)
    requires Unrepeated(xs) && Chosen(n, xs, g, m, i)
    ensures xs[i] in Held(n, BlockMemo(xs, g, m))
  {
    var a := SmallestAt(xs, g, m);
    if i != a {
      SamePage(n, xs[a].mark, xs[i].mark);
    }
  }

  lemma {:induction false} BlocksHave(n: Pos, xs: seq<Sample>, g: nat, m: nat, i: nat, top: nat)
    requires Unrepeated(xs) && Chosen(n, xs, g, m, i) && m <= top <= |xs| && Closes(n, xs, top - 1)
    ensures xs[i] in Blocks(n, xs, top)
  {
    if m == top {
      StartOf(n, xs, g, m);
      HeldChosen(n, xs, g, m, i);
    } else {
      var t := StartAt(n, xs, top);
      StartGroup(n, xs, top);
      StartBehind(n, xs, m, top);
      assert Closes(n, xs, t - 1);
      BlocksHave(n, xs, g, m, i, t);
    }
  }

  /** The run that ends at top starts at m or later, if another ends at m. */
  lemma {:induction false} StartBehind(n: Pos, xs: seq<Sample>, m: nat, top: nat)
    requires 0 < m < top <= |xs| && Closes(n, xs, m - 1)
    ensures m <= StartAt(n, xs, top)
  {
    if m + 1 < top && !Opens(n, xs, top - 1) {
      StartBehind(n, xs, m, top - 1);
    }
  }

  lemma {:induction false} BlocksChosen(n: Pos, xs: seq<Sample>, x: Sample, top: nat) returns (g: nat, m: nat, i: nat)
    requires 0 < top <= |xs| && Closes(n, xs, top - 1) && x in Blocks(n, xs, top)
    ensures Chosen(n, xs, g, m, i) && xs[i] == x
  {
    g, m := StartAt(n, xs, top), top;
    StartGroup(n, xs, top);
    if x in Held(n, BlockMemo(xs, g, m)) {
      i := if x == xs[SmallestAt(xs, g, m)] then SmallestAt(xs, g, m) else LargestAt(xs, g + 1, m);
    } else {
      assert Closes(n, xs, g - 1);
      g, m, i := BlocksChosen(n, xs, x, g);
    }
  }

  /** A sample belongs to one run only. */
  lemma OneBlock(n: Pos, xs: seq<Sample>, g: nat, m: nat, h: nat, l: nat, i: nat)
    requires Block(n, xs, g, m) && Block(n, xs, h, l) && g <= i < m && h <= i < l
    ensures g == h && m == l
  {}

  /** Of every run of samples on one page of any feed, the smallest is kept, and
      the largest is kept exactly if it is not fed first or is alone. */
  lemma LargestKept(n: Pos, xs: seq<Sample>, g: nat, m: nat)
    requires Unrepeated(xs) && Block(n, xs, g, m)
    ensures xs[SmallestAt(xs, g, m)] in Kept(PageEnds(n), xs)
    ensures xs[LargestAt(xs, g, m)] in Kept(PageEnds(n), xs) <==> LargestAt(xs, g, m) != g || m == g + 1
  {
    var a, b := SmallestAt(xs, g, m), LargestAt(xs, g, m);
    KeptBlocks(n, xs);
    BlocksHave(n, xs, g, m, a, |xs|);
    if b != g {
      assert b == LargestAt(xs, g + 1, m);
    }
    if b != g || m == g + 1 {
      BlocksHave(n, xs, g, m, b, |xs|);
    } else if xs[b] in Blocks(n, xs, |xs|) {
      var h, l, i := BlocksChosen(n, xs, xs[b], |xs|);
      OneBlock(n, xs, g, m, h, l, i);
      assert false;
    }
  }

  /** So a page's largest key is lost if it comes first. */
  lemma LargestFirstIsLost()
    ensures var big, small := Sample(5, 0), Sample(3, 1);
      big !in Kept(PageEnds(16), [big, small])
  {
    var xs := [Sample(5, 0), Sample(3, 1)];
    assert PageId(16, 0) == 0 && PageId(16, 1) == 0;
    LargestKept(16, xs, 0, 2);
  }

  // ----- ascending feeds -----

  lemma {:induction false} AscendingMemo(xs: seq<Sample>, g: nat, m: nat)
    requires Ascends(xs) && g < m <= |xs|
    ensures SmallestAt(xs, g, m) == g && LargestAt(xs, g, m) == m - 1
  {
    if g + 1 < m {
      AscendingMemo(xs, g, m - 1);
    }
  }

  lemma HeldGroup(n: Pos, xs: seq<Sample>, g: nat, m: nat)
    requires Ascends(xs) && Group(n, xs, g, m)
    ensures Held(n, BlockMemo(xs, g, m)) == GroupEnds(xs, g, m)
  {
    AscendingMemo(xs, g, m);
    if g < m - 1 {
      AscendingMemo(xs, g + 1, m);
      SamePage(n, xs[g].mark, xs[m - 1].mark);
    }
  }

  lemma {:induction false} BlocksEnds(n: Pos, xs: seq<Sample>, m: nat)
    requires Ascends(xs) && m <= |xs| && (m > 0 ==> Closes(n, xs, m - 1))
    ensures Blocks(n, xs, m) == Ends(n, xs, m)
  {
    if m > 0 {
      var g := StartAt(n, xs, m);
      StartGroup(n, xs, m);
      assert g > 0 ==> Closes(n, xs, g - 1);
      BlocksEnds(n, xs, g);
      HeldGroup(n, xs, g, m);
      EndsGroup(n, xs, g, m);
    }
  }

  /** Of an ascending feed, the page sampler keeps exactly the first and the last
      sample of every page. */
  lemma PageEndsKept(n: Pos, xs: seq<Sample>)
    requires Ascends(xs)
    ensures Kept(PageEnds(n), xs) == Ends(n, xs, |xs|)
  {
    KeptBlocks(n, xs);
    BlocksEnds(n, xs, |xs|);
  }

  /** Every sample lies between two kept ones of its page. */
  lemma Bracketed(n: Pos, xs: seq<Sample>, i: nat) returns (a: nat, b: nat)
    requires Ascends(xs) && i < |xs|
    ensures a <= i <= b < |xs| && xs[a] in Ends(n, xs, |xs|) && xs[b] in Ends(n, xs, |xs|)
    ensures PageId(n, xs[a].mark) == PageId(n, xs[i].mark) == PageId(n, xs[b].mark)
    ensures xs[a].key <= xs[i].key <= xs[b].key
  {
    a := OpensAt(n, xs, i);
    b := ClosesAt(n, xs, i);
    EndsHave(n, xs, a, |xs|);
    EndsHave(n, xs, b, |xs|);
  }

  lemma OpensAt(n: Pos, xs: seq<Sample>, i: nat) returns (a: nat)
    requires i < |xs|
    ensures a <= i && Opens(n, xs, a) && PageId(n, xs[a].mark) == PageId(n, xs[i].mark)
  {
    if Opens(n, xs, i) {
      a := i;
    } else {
      a := OpensAt(n, xs, i - 1);
    }
  }

  lemma ClosesAt(n: Pos, xs: seq<Sample>, i: nat) returns (b: nat)
    requires i < |xs|
    ensures i <= b < |xs| && Closes(n, xs, b) && PageId(n, xs[b].mark) == PageId(n, xs[i].mark)
    decreases |xs| - i
  {
    if Closes(n, xs, i) {
      b := i;
    } else {
      b := ClosesAt(n, xs, i + 1);
    }
  }

  lemma {:induction false} EndsHave(n: Pos, xs: seq<Sample>, i: nat, m: nat)
    requires i < m <= |xs| && (Opens(n, xs, i) || Closes(n, xs, i))
    ensures xs[i] in Ends(n, xs, m)
  {
    if i < m - 1 {
      EndsHave(n, xs, i, m - 1);
    }
  }

  // ---------- nothing is made up ----------

  lemma {:induction false} MemoFrom(kind: Kind, xs: seq<Sample>, m: nat)
    requires m <= |xs|
    ensures var memo := MemoAt(kind, xs, m);
      && (memo.low.Some? ==> memo.low.value in xs)
      && (memo.high.Some? ==> memo.high.value in xs)
    ensures forall x :: x in OutAt(kind, xs, m) ==> x in xs
  {
    if m > 0 {
      MemoFrom(kind, xs, m - 1);
    }
  }

  /** Whatever a sampler keeps was fed to it. */
  lemma KeptFrom(kind: Kind, xs: seq<Sample>)
    ensures forall x :: x in Kept(kind, xs) ==> x in xs
  {
    MemoFrom(kind, xs, |xs|);
  }
}
