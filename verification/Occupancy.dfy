/** How full the tree is: no leaf below half of its slots, no inner node other
    than the root below half of its children, hence a bound on the height and on
    the number of leaves. */
module Occupancy {
  import opened Keys
  import opened XNode
  import opened BTree
  import opened LeafChain

  // ---------- leaves ----------

  ghost predicate FilledPage(p: Page, n: nat) {
    p.Valid(n) && |p.Entries()| >= n / 2
  }

  ghost predicate Filled(tips: seq<Tip>, n: nat) {
    forall i {:trigger FilledPage(tips[i].page, n)} :: 0 <= i < |tips| ==> FilledPage(tips[i].page, n)
  }

  lemma PutGrows(p: Page, n: nat, k: Key, v: Value)
    requires p.Valid(n) && !p.Full() && k !in p.keys && k != INVALID
    ensures Put(p, k, v).Valid(n) && |Put(p, k, v).Entries()| == |p.Entries()| + 1
  {
    PutEntries(p, n, k, v);
    FullSize(p, n);
    assert k !in p.Entries();
  }

  lemma StepFilled(tip: Tip, n: nat, k: Key, v: Value, cand: Tip)
    requires tip.page.Valid(n) && n >= 2 && cand.page.Blank(n)
    requires k !in tip.page.keys && k != INVALID
    requires FilledPage(tip.page, n) || tip.page.Full()
    ensures Filled(LeafStep(tip, k, v, cand), n)
  {
    if tip.page.Full() {
      SplitSizes(tip.page, n, cand.leaf, cand.page, k, v);
    } else {
      PutGrows(tip.page, n, k, v);
    }
  }

  /** An insert leaves every leaf at least half full, even when the leaf that
      splits was the whole tree. */
  lemma InsertFilled(tips: seq<Tip>, n: nat, pos: nat, k: Key, v: Value, cand: Tip)
    requires pos < |tips| && tips[pos].page.Valid(n) && n >= 2 && cand.page.Blank(n)
    requires k !in tips[pos].page.keys && k != INVALID
    requires forall i :: 0 <= i < |tips| ==> FilledPage(tips[i].page, n) || (i == pos && tips[i].page.Full())
    ensures Filled(InsertTips(tips, pos, k, v, cand), n)
  {
    StepFilled(tips[pos], n, k, v, cand);
    SpliceFilled(tips, pos, LeafStep(tips[pos], k, v, cand), n);
  }

  lemma SpliceFilled(tips: seq<Tip>, pos: nat, s: seq<Tip>, n: nat)
    requires pos < |tips| && 1 <= |s| <= 2 && Filled(s, n)
    requires forall i :: 0 <= i < |tips| && i != pos ==> FilledPage(tips[i].page, n)
    ensures Filled(Splice(tips, pos, s), n)
  {
    var t := Splice(tips, pos, s);
    forall i | 0 <= i < |t| ensures FilledPage(t[i].page, n) {
      SpliceAt(tips, pos, s, i);
    }
  }

  // ---------- inner nodes ----------

  /** Every inner node of t has at least half of n + 1 children. */
  ghost predicate Bushy(t: Tree, n: nat)
    decreases t
  {
    t.Fork? ==>
      && |t.kids| >= (n + 1) / 2
      && forall i :: 0 <= i < |t.kids| ==> Bushy(t.kids[i], n)
  }

  ghost predicate AllBushy(kids: seq<Tree>, n: nat) {
    forall i :: 0 <= i < |kids| ==> Bushy(kids[i], n)
  }

  /** The root alone may have fewer, but has two. */
  ghost predicate BushyRoot(t: Tree, n: nat) {
    t.Fork? ==> |t.kids| >= 2 && AllBushy(t.kids, n)
  }

  lemma InsertAtBushy(seps: seq<Key>, kids: seq<Tree>, i: nat, up: Key, kid: Tree, n: nat)
    requires |kids| == |seps| + 1 && i <= |seps| && AllBushy(kids, n) && Bushy(kid, n)
    ensures var o := InsertAt(seps, kids, i, up, kid); |o.kids| == |kids| + 1 && AllBushy(o.kids, n)
  {
    var o := InsertAt(seps, kids, i, up, kid);
    forall j | 0 <= j < |o.kids| ensures Bushy(o.kids[j], n) {
      assert o.kids[j] == if j <= i then kids[j] else if j == i + 1 then kid else kids[j - 1];
    }
  }

  /** Where a full node is cut: the left part keeps (n + 1) / 2 children, the
      sibling gets the others, and the separator between them goes up.  Then one
      of the two takes the new child right of child i. */
  lemma SplitEven(n: nat, seps: seq<Key>, kids: seq<Tree>, i: nat, up: Key, kid: Tree)
    requires n >= 2 && |kids| == n + 1 && i <= n && RightSide(n, seps, i, up)
    ensures var h, r := (n + 1) / 2, AddChild(n, seps, kids, i, up, kid);
      && r.tree.Fork? && r.sib.Sib? && r.sib.tree.Fork? && r.sib.up == seps[h - 1]
      && (i < h ==> r.tree.kids == kids[..i + 1] + [kid] + kids[i + 1..h] && r.sib.tree.kids == kids[h..])
      && (i >= h ==> r.tree.kids == kids[..h] && r.sib.tree.kids == kids[h..i + 1] + [kid] + kids[i + 1..])
      && (i < h ==> r.tree.seps == seps[..i] + [up] + seps[i..h - 1] && r.sib.tree.seps == seps[h..])
      && (i >= h ==> r.tree.seps == seps[..h - 1] && r.sib.tree.seps == seps[h..i] + [up] + seps[i..])
  {
    var h := (n + 1) / 2;
    if i < h {
      assert kids[..h][..i + 1] == kids[..i + 1] && kids[..h][i + 1..] == kids[i + 1..h];
      assert seps[..h - 1][..i] == seps[..i] && seps[..h - 1][i..] == seps[i..h - 1];
    } else {
      assert kids[h..][..i - h + 1] == kids[h..i + 1] && kids[h..][i - h + 1..] == kids[i + 1..];
      assert seps[h..][..i - h] == seps[h..i] && seps[h..][i - h..] == seps[i..];
    }
  }

  lemma SliceBushy(kids: seq<Tree>, n: nat, t: nat)
    requires AllBushy(kids, n) && t <= |kids|
    ensures AllBushy(kids[..t], n) && AllBushy(kids[t..], n)
  {}

  /** The two halves of a full node both keep (n + 1) / 2 children. */
  lemma AddChildBushy(n: nat, seps: seq<Key>, kids: seq<Tree>, i: nat, up: Key, kid: Tree)
    requires n >= 1 && |kids| == |seps| + 1 && |seps| <= n && i <= |seps|
    requires AllBushy(kids, n) && Bushy(kid, n)
    ensures var r := AddChild(n, seps, kids, i, up, kid);
      && r.tree.Fork? && AllBushy(r.tree.kids, n)
      && (r.sib.NoSib? ==> |r.tree.kids| == |kids| + 1)
      && (r.sib.Sib? ==> Bushy(r.tree, n) && Bushy(r.sib.tree, n))
  {
    var t := (n + 1) / 2;
    if |seps| == n {
      assert t <= n + 1 - t && Threshold(n) == t;
      SliceBushy(kids, n, t);
    }
    if |seps| < n {
      InsertAtBushy(seps, kids, i, up, kid, n);
    } else if up >= seps[t - 1] {
      InsertAtBushy(seps[t..], kids[t..], if i >= t then i - t else 0, up, kid, n);
    } else {
      InsertAtBushy(seps[..t - 1], kids[..t], if i < t then i else t - 1, up, kid, n);
    }
  }

  /** An insert keeps every inner node below the root half full. */
  lemma {:induction false} InsertBushy(n: nat, d: nat, t: Tree, k: Key, v: Value, cand: Tip)
    requires n >= 2 && Shaped(t, n, d) && cand.page.Blank(n)
    requires t.Fork? ==> AllBushy(t.kids, n)
    ensures var r := InsertT(n, d, t, k, v, cand);
      && (r.tree.Fork? ==> AllBushy(r.tree.kids, n))
      && (r.sib.Sib? ==> Bushy(r.tree, n) && Bushy(r.sib.tree, n))
      && (r.sib.NoSib? && t.Fork? ==> r.tree.Fork? && |r.tree.kids| >= |t.kids|)
    decreases t
  {
    match t
    case Bottom(tip) =>
    case Fork(seps, kids) =>
      var i := ChildIdx(seps, k);
      assert Bushy(kids[i], n);
      InsertBushy(n, d - 1, kids[i], k, v, cand);
      var r := InsertT(n, d - 1, kids[i], k, v, cand);
      assert Bushy(r.tree, n);
      assert AllBushy(kids[i := r.tree], n);
      if r.sib.Sib? {
        AddChildBushy(n, seps, kids[i := r.tree], i, r.sib.up, r.sib.tree);
      }
  }

  // ---------- counting ----------

  function Pow(b: nat, e: nat): nat {
    if e == 0 then 1 else b * Pow(b, e - 1)
  }

  /** Powers multiply as exponents add. */
  lemma {:induction false} PowSum(b: nat, e: nat, f: nat)
    ensures Pow(b, 0) == 1 && Pow(b, 1) == b && Pow(b, e + f) == Pow(b, e) * Pow(b, f)
  {
    assert Pow(b, 1) == b * Pow(b, 0);
    if e > 0 {
      PowSum(b, e - 1, f);
      assert b * (Pow(b, e - 1) * Pow(b, f)) == (b * Pow(b, e - 1)) * Pow(b, f);
    }
  }

  lemma {:induction false} KidsCount(kids: seq<Tree>, m: nat)
    requires forall i :: 0 <= i < |kids| ==> |Tips(kids[i])| >= m
    ensures |TipsAll(kids)| >= |kids| * m
  {
    if |kids| > 0 {
      KidsCount(kids[1..], m);
      assert |kids| * m == m + (|kids| - 1) * m;
    }
  }

  lemma {:induction false} BushyCount(t: Tree, n: nat, d: nat)
    requires Shaped(t, n, d) && Bushy(t, n)
    ensures |Tips(t)| >= Pow((n + 1) / 2, d)
    decreases t
  {
    match t
    case Bottom(tip) =>
    case Fork(seps, kids) =>
      var m := Pow((n + 1) / 2, d - 1);
      forall i | 0 <= i < |kids| ensures |Tips(kids[i])| >= m {
        BushyCount(kids[i], n, d - 1);
      }
      KidsCount(kids, m);
      MulMonotone((n + 1) / 2, |kids|, m);
  }

  lemma MulMonotone(a: nat, b: nat, m: nat)
    requires a <= b
    ensures a * m <= b * m
  {}

  lemma RootCount(t: Tree, n: nat, d: nat)
    requires Shaped(t, n, d) && d >= 1 && BushyRoot(t, n)
    ensures |Tips(t)| >= 2 * Pow((n + 1) / 2, d - 1)
  {
    var m := Pow((n + 1) / 2, d - 1);
    forall i | 0 <= i < |t.kids| ensures |Tips(t.kids[i])| >= m {
      BushyCount(t.kids[i], n, d - 1);
    }
    KidsCount(t.kids, m);
    MulMonotone(2, |t.kids|, m);
  }

  lemma DisjointSize(a: map<Key, Value>, b: map<Key, Value>)
    requires a.Keys !! b.Keys
    ensures |a + b| == |a| + |b|
  {
    assert (a + b).Keys == a.Keys + b.Keys;
    assert |a + b| == |(a + b).Keys| && |a| == |a.Keys| && |b| == |b.Keys|;
  }

  lemma HeadDisjoint(tips: seq<Tip>, n: nat)
    requires |tips| > 0 && PagesOk(tips, n) && Ascending(tips)
    ensures tips[0].page.Entries().Keys !! Contents(tips[1..], n).Keys
  {
    forall k | k in tips[0].page.Entries() ensures k !in Contents(tips[1..], n) {
      ContentsMember(tips[1..], n, k);
      forall i | 0 <= i < |tips| - 1 ensures k !in tips[1..][i].page.Entries() {
        assert Before(tips[0].page, tips[i + 1].page);
      }
    }
  }

  lemma CountHead(tips: seq<Tip>, n: nat)
    requires |tips| > 0 && PagesOk(tips, n) && Ascending(tips)
    ensures |Contents(tips, n)| == |tips[0].page.Entries()| + |Contents(tips[1..], n)|
  {
    HeadDisjoint(tips, n);
    ContentsOne(tips[0], n);
    ContentsConcat([tips[0]], tips[1..], n);
    assert tips == [tips[0]] + tips[1..];
    DisjointSize(tips[0].page.Entries(), Contents(tips[1..], n));
  }

  lemma TailOk(tips: seq<Tip>, n: nat)
    requires |tips| > 0 && PagesOk(tips, n) && Ascending(tips) && Filled(tips, n)
    ensures PagesOk(tips[1..], n) && Ascending(tips[1..]) && Filled(tips[1..], n)
    ensures FilledPage(tips[0].page, n)
  {}

  lemma MulStep(a: nat, m: nat)
    requires a > 0
    ensures a * m == m + (a - 1) * m
  {}

  /** Half-full leaves with ascending keys hold at least n/2 keys each. */
  lemma {:induction false} FilledCount(tips: seq<Tip>, n: nat)
    requires PagesOk(tips, n) && Ascending(tips) && Filled(tips, n)
    ensures |Contents(tips, n)| >= |tips| * (n / 2)
  {
    if |tips| > 0 {
      TailOk(tips, n);
      FilledCount(tips[1..], n);
      CountHead(tips, n);
      MulStep(|tips|, n / 2);
    }
  }
}
