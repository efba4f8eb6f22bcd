/** The tree as a value: what TreeInner::insert and XTree::find_leaf do to the
    shape of the tree, and what that means.

    Inner nodes are Fork values; leaves are Tip values that name the leaf object
    and carry its page.  InsertT is the recursive insert with its splits.  The
    results are stated on Tips, the leaves from left to right: an insert
    replaces one leaf, the one find_leaf finds, by that leaf and possibly the
    candidate. */
module BTree {
  import opened Keys
  import opened XNode

  datatype Tip = Tip(leaf: Leaf, page: Page)

  datatype Tree = Bottom(tip: Tip) | Fork(seps: seq<Key>, kids: seq<Tree>)

  /** First separator above k (TreeInner::find_children_idx). */
  function ChildIdx(seps: seq<Key>, k: Key): (i: nat)
    ensures i <= |seps|
    ensures i < |seps| ==> k < seps[i]
    ensures forall j :: 0 <= j < i ==> seps[j] <= k
  {
    if |seps| == 0 || k < seps[0] then 0
    else
      var i := ChildIdx(seps[1..], k);
      assert forall j :: 0 <= j < i + 1 ==> seps[j] == if j == 0 then seps[0] else seps[1..][j - 1];
      i + 1
  }

  /** Every leaf is d levels below, every page has n slots and every inner node
      at most n separators. */
  ghost predicate Shaped(t: Tree, n: nat, d: nat)
    decreases t
  {
    match t
    case Bottom(tip) => d == 0 && tip.page.Valid(n)
    case Fork(seps, kids) =>
      && d > 0 && |kids| == |seps| + 1 && |seps| <= n
      && forall i :: 0 <= i < |kids| ==> Shaped(kids[i], n, d - 1)
  }

  /** The leaves from left to right. */
  function Tips(t: Tree): seq<Tip>
    decreases t, 1
  {
    match t
    case Bottom(tip) => [tip]
    case Fork(_, kids) => TipsAll(kids)
  }

  function TipsAll(kids: seq<Tree>): seq<Tip>
    decreases kids, 0
  {
    if |kids| == 0 then [] else Tips(kids[0]) + TipsAll(kids[1..])
  }

  // ---------- insert ----------

  datatype Sib = NoSib | Sib(up: Key, tree: Tree)

  datatype Insertion = Insertion(tree: Tree, sib: Sib)

  function Inserted<T>(s: seq<T>, i: nat, x: T): seq<T>
    requires i <= |s|
  {
    s[..i] + [x] + s[i..]
  }

  /** insert_at_pos: the new child goes right of child i. */
  function InsertAt(seps: seq<Key>, kids: seq<Tree>, i: nat, up: Key, kid: Tree): Tree
    requires |kids| == |seps| + 1 && i <= |seps|
  {
    Fork(Inserted(seps, i, up), Inserted(kids, i + 1, kid))
  }

  function Threshold(n: nat): nat { (n + 1) / 2 }

  /** A child split off (up, kid) at position i; a full node splits first. */
  function AddChild(n: nat, seps: seq<Key>, kids: seq<Tree>, i: nat, up: Key, kid: Tree): Insertion
    requires n >= 1 && |kids| == |seps| + 1 && |seps| <= n && i <= |seps|
  {
    if |seps| < n then Insertion(InsertAt(seps, kids, i, up, kid), NoSib)
    else
      var t := Threshold(n);
      var mid := seps[t - 1];
      if up >= mid then
        // the program asserts i >= t here
        var j := if i >= t then i - t else 0;
        Insertion(Fork(seps[..t - 1], kids[..t]), Sib(mid, InsertAt(seps[t..], kids[t..], j, up, kid)))
      else
        var j := if i < t then i else t - 1;
        Insertion(InsertAt(seps[..t - 1], kids[..t], j, up, kid), Sib(mid, Fork(seps[t..], kids[t..])))
  }

  /** A node whose child i has become r. */
  function Grow(n: nat, seps: seq<Key>, kids: seq<Tree>, i: nat, r: Insertion): Insertion
    requires n >= 1 && |kids| == |seps| + 1 && |seps| <= n && i <= |seps|
  {
    match r.sib
    case NoSib => Insertion(Fork(seps, kids[i := r.tree]), NoSib)
    case Sib(up, kid) => AddChild(n, seps, kids[i := r.tree], i, up, kid)
  }

  /** What one leaf becomes. */
  function LeafStep(tip: Tip, k: Key, v: Value, cand: Tip): (r: seq<Tip>)
    requires |tip.page.keys| == |tip.page.vals| > 0 && |cand.page.keys| == |cand.page.vals|
    ensures 1 <= |r| <= 2
  {
    var r := LeafInsert(tip.page, cand.leaf, cand.page, k, v);
    if r.split then [Tip(tip.leaf, r.left), Tip(cand.leaf, r.right)] else [Tip(tip.leaf, r.left)]
  }

  /** s is what leaf tip becomes: it either stores the pair, or splits; the
      same leaf and the candidate then hold the old pairs and the new one, cut at
      the candidate's first key, and neither is less than half full. */
  ghost predicate Stepped(s: seq<Tip>, tip: Tip, n: nat, k: Key, v: Value, cand: Tip) {
    && tip.page.Valid(n)
    && 1 <= |s| <= 2 && s[0].leaf == tip.leaf
    && (|s| == 2 <==> tip.page.Full())
    && (|s| == 1 ==>
          && s[0].page.Valid(n) && s[0].page == Put(tip.page, k, v)
          && s[0].page.Entries() == tip.page.Entries()[k := v])
    && (|s| == 2 ==>
          && s[1].leaf == cand.leaf
          && Partition(tip.page.Entries()[k := v], s[0].page, s[1].page, n)
          && |s[0].page.Entries()| >= n / 2 && |s[1].page.Entries()| >= n - n / 2)
  }

  lemma LeafStepOk(tip: Tip, n: nat, k: Key, v: Value, cand: Tip)
    requires tip.page.Valid(n) && n >= 2 && cand.page.Blank(n)
    requires k !in tip.page.keys && k != INVALID
    ensures Stepped(LeafStep(tip, k, v, cand), tip, n, k, v, cand)
  {
    if tip.page.Full() {
      SplitPartition(tip.page, n, cand.leaf, cand.page, k, v);
    } else {
      PutEntries(tip.page, n, k, v);
    }
  }

  /** Insert (k, v); cand is the blank leaf that a leaf split will use. */
  function InsertT(n: nat, d: nat, t: Tree, k: Key, v: Value, cand: Tip): (r: Insertion)
    requires n >= 2 && Shaped(t, n, d) && cand.page.Blank(n)
    ensures d > 0 ==> r.tree.Fork? && (r.sib.Sib? ==> r.sib.tree.Fork?)
    decreases t
  {
    match t
    case Bottom(tip) =>
      var r := LeafStep(tip, k, v, cand);
      if |r| == 2 && |r[1].page.keys| > 0 then Insertion(Bottom(r[0]), Sib(r[1].page.keys[0], Bottom(r[1])))
      else Insertion(Bottom(r[0]), NoSib)
    case Fork(seps, kids) =>
      var i := ChildIdx(seps, k);
      Grow(n, seps, kids, i, InsertT(n, d - 1, kids[i], k, v, cand))
  }

  /** find_leaf: follow the separators down. */
  function FindTip(t: Tree, n: nat, d: nat, k: Key): (tip: Tip)
    requires Shaped(t, n, d)
    ensures tip.page.Valid(n)
    decreases t
  {
    match t
    case Bottom(tip) => tip
    case Fork(seps, kids) => FindTip(kids[ChildIdx(seps, k)], n, d - 1, k)
  }

  function Lookup(t: Tree, n: nat, d: nat, k: Key): Option<Value>
    requires Shaped(t, n, d)
  {
    PageGet(FindTip(t, n, d, k).page, k)
  }

  /** Position of that leaf among the tips. */
  function LeafPos(t: Tree, n: nat, d: nat, k: Key): nat
    requires Shaped(t, n, d)
    decreases t
  {
    match t
    case Bottom(tip) => 0
    case Fork(seps, kids) =>
      var i := ChildIdx(seps, k);
      |TipsAll(kids[..i])| + LeafPos(kids[i], n, d - 1, k)
  }

  // ---------- tips ----------

  lemma {:induction false} TipsAllConcat(a: seq<Tree>, b: seq<Tree>)
    ensures TipsAll(a + b) == TipsAll(a) + TipsAll(b)
  {
    if |a| == 0 {
      assert a + b == b;
    } else {
      var c, rest := a + b, a[1..];
      TipsAllConcat(rest, b);
      assert c[0] == a[0] && c[1..] == rest + b;
      assert TipsAll(c) == Tips(a[0]) + TipsAll(rest + b);
      Regroup(Tips(a[0]), TipsAll(rest), TipsAll(b));
    }
  }

  lemma Regroup(a: seq<Tip>, b: seq<Tip>, c: seq<Tip>)
    ensures a + (b + c) == (a + b) + c
  {}

  lemma {:induction false} TipsAllAround(kids: seq<Tree>, i: nat)
    requires i < |kids|
    ensures TipsAll(kids) == TipsAll(kids[..i]) + Tips(kids[i]) + TipsAll(kids[i + 1..])
  {
    var a, b := kids[..i], kids[i..];
    assert kids == a + b;
    TipsAllConcat(a, b);
    assert b[0] == kids[i] && b[1..] == kids[i + 1..];
    assert TipsAll(b) == Tips(kids[i]) + TipsAll(kids[i + 1..]);
    Regroup(TipsAll(a), Tips(kids[i]), TipsAll(kids[i + 1..]));
  }

  /** The flat effect of an insert: only the leaf at pos changes. */
  function InsertTips(tips: seq<Tip>, pos: nat, k: Key, v: Value, cand: Tip): seq<Tip>
    requires pos < |tips| && |tips[pos].page.keys| == |tips[pos].page.vals| > 0
    requires |cand.page.keys| == |cand.page.vals|
  {
    tips[..pos] + LeafStep(tips[pos], k, v, cand) + tips[pos + 1..]
  }

  function Flat(r: Insertion): seq<Tip> {
    Tips(r.tree) + if r.sib.Sib? then Tips(r.sib.tree) else []
  }

  /** find_leaf ends at the leaf LeafPos counts to. */
  lemma {:induction false} FindTipPos(t: Tree, n: nat, d: nat, k: Key)
    requires Shaped(t, n, d)
    ensures LeafPos(t, n, d, k) < |Tips(t)| && Tips(t)[LeafPos(t, n, d, k)] == FindTip(t, n, d, k)
    decreases t
  {
    match t
    case Bottom(tip) =>
    case Fork(seps, kids) =>
      var i := ChildIdx(seps, k);
      FindTipPos(kids[i], n, d - 1, k);
      TipsAllAround(kids, i);
  }

  // ---------- cutting a node ----------

  /** A node cut before separator s, which moves up. */
  function CutAt(t: Tree, s: nat): Insertion
    requires t.Fork? && s < |t.seps| && |t.kids| == |t.seps| + 1
  {
    Insertion(Fork(t.seps[..s], t.kids[..s + 1]), Sib(t.seps[s], Fork(t.seps[s + 1..], t.kids[s + 1..])))
  }

  lemma CutTips(t: Tree, s: nat)
    requires t.Fork? && s < |t.seps| && |t.kids| == |t.seps| + 1
    ensures Flat(CutAt(t, s)) == Tips(t)
  {
    assert t.kids == t.kids[..s + 1] + t.kids[s + 1..];
    TipsAllConcat(t.kids[..s + 1], t.kids[s + 1..]);
  }

  /** The new separator is on the side of the threshold its position says, so
      the assertion in the source holds. */
  ghost predicate RightSide(n: nat, seps: seq<Key>, i: nat, up: Key) {
    |seps| == n >= 1 && (up >= seps[Threshold(n) - 1] <==> i >= Threshold(n))
  }

  /** Where a node with n + 1 separators, the new one at i, is cut. */
  function CutPoint(n: nat, i: nat): nat
    requires n >= 1
  {
    if i >= Threshold(n) then Threshold(n) - 1 else Threshold(n)
  }

  /** Splitting a full node and inserting into the proper half is inserting
      first and cutting afterwards. */
  lemma AddChildCut(n: nat, seps: seq<Key>, kids: seq<Tree>, i: nat, up: Key, kid: Tree)
    requires n >= 1 && |kids| == n + 1 && i <= n && RightSide(n, seps, i, up)
    ensures AddChild(n, seps, kids, i, up, kid)
         == CutAt(InsertAt(seps, kids, i, up, kid), CutPoint(n, i))
  {
    if i >= Threshold(n) {
      CutBehind(seps, kids, i, up, kid, Threshold(n));
    } else {
      CutBefore(seps, kids, i, up, kid, Threshold(n));
    }
  }

  lemma CutBehind(seps: seq<Key>, kids: seq<Tree>, i: nat, up: Key, kid: Tree, t: nat)
    requires |kids| == |seps| + 1 && 0 < t <= i <= |seps|
    ensures CutAt(InsertAt(seps, kids, i, up, kid), t - 1)
         == Insertion(Fork(seps[..t - 1], kids[..t]), Sib(seps[t - 1], InsertAt(seps[t..], kids[t..], i - t, up, kid)))
  {
    var o := InsertAt(seps, kids, i, up, kid);
    var q := InsertAt(seps[t..], kids[t..], i - t, up, kid);
    assert o.seps[..t - 1] == seps[..t - 1] && o.seps[t..] == q.seps;
    assert o.kids[..t] == kids[..t] && o.kids[t..] == q.kids;
  }

  lemma CutBefore(seps: seq<Key>, kids: seq<Tree>, i: nat, up: Key, kid: Tree, t: nat)
    requires |kids| == |seps| + 1 && i < t <= |seps|
    ensures CutAt(InsertAt(seps, kids, i, up, kid), t)
         == Insertion(InsertAt(seps[..t - 1], kids[..t], i, up, kid), Sib(seps[t - 1], Fork(seps[t..], kids[t..])))
  {
    var o := InsertAt(seps, kids, i, up, kid);
    var q := InsertAt(seps[..t - 1], kids[..t], i, up, kid);
    assert o.seps[..t] == q.seps && o.seps[t + 1..] == seps[t..];
    assert o.kids[..t + 1] == q.kids && o.kids[t + 1..] == kids[t..];
  }

  lemma InsertAtTips(seps: seq<Key>, kids: seq<Tree>, i: nat, up: Key, kid: Tree)
    requires |kids| == |seps| + 1 && i <= |seps|
    ensures Tips(InsertAt(seps, kids, i, up, kid))
         == TipsAll(kids[..i]) + (Tips(kids[i]) + Tips(kid)) + TipsAll(kids[i + 1..])
  {
    var a, b := kids[..i + 1], kids[i + 1..];
    TipsAllConcat(a + [kid], b);
    TipsAllConcat(a, [kid]);
    TipsAllAround(a, i);
    assert a[..i] == kids[..i] && a[i + 1..] == [] && TipsAll([kid]) == Tips(kid) + TipsAll([kid][1..]);
  }
}
