/** Inner nodes in memory (TreeInner).  A node's ghost field tree is the value
    its subtree represents; insert is proved to turn it into what InsertT
    computes, splits and new siblings included. */
module TreeInner {
  import opened Keys
  import opened XNode
  import opened BTree
  import opened TreeOrder

  /** A child pointer; the depth says which of the two it is. */
  datatype Ptr = Null | LeafPtr(leaf: Leaf) | InnerPtr(inner: Inner)

  /** The objects a child pointer leads to. */
  ghost function Footprint(p: Ptr): set<object>
    reads if p.InnerPtr? then {p.inner} else {}
  {
    match p
    case Null => {}
    case LeafPtr(l) => l.Footprint()
    case InnerPtr(c) => c.repr
  }

  class Inner {
    const n: nat
    const keys: array<Key>
    const childrens: array<Ptr>
    var upKey: Key
    var numKeys: nat
    ghost var tree: Tree
    ghost var repr: set<object>

    constructor Empty(n: nat)
      ensures this.n == n && numKeys == 0 && upKey == INVALID
      ensures fresh(keys) && fresh(childrens) && keys.Length == n && childrens.Length == n + 1
    {
      this.n := n;
      keys := new Key[n];
      childrens := new Ptr[n + 1](i => Null);
      upKey := INVALID;
      numKeys := 0;
      tree := Fork([], []);
      repr := {};
    }

    /** A node over two children. */
    constructor Pair(n: nat, k: Key, l: Ptr, r: Ptr)
      requires n >= 1
      ensures this.n == n && numKeys == 1 && keys.Length == n && childrens.Length == n + 1
      ensures keys[..1] == [k] && Ptrs() == [l, r]
      ensures fresh(keys) && fresh(childrens)
    {
      this.n := n;
      keys := new Key[n];
      childrens := new Ptr[n + 1](i => Null);
      upKey := 0;
      numKeys := 1;
      tree := Fork([], []);
      repr := {};
      new;
      keys[0] := k;
      childrens[0] := l;
      childrens[1] := r;
      assert Ptrs() == [l, r] && keys[..1] == [k];
    }

    /** A new root over two subtrees. */
    static method Parent(n: nat, k: Key, l: Ptr, r: Ptr, ghost d: nat, ghost tl: Tree, ghost tr: Tree)
      returns (p: Inner)
      requires n >= 1 && Represents(l, tl, n, d) && Represents(r, tr, n, d) && Footprint(l) !! Footprint(r)
      ensures fresh(p) && p.Valid(d + 1) && p.n == n && p.tree == Fork([k], [tl, tr])
      ensures fresh(p.repr - Footprint(l) - Footprint(r))
    {
      p := new Inner.Pair(n, k, l, r);
      p.AdoptPair(k, l, r, d, tl, tr);
    }

    ghost method AdoptPair(k: Key, l: Ptr, r: Ptr, d: nat, tl: Tree, tr: Tree)
      requires n >= 1 && keys.Length == n && childrens.Length == n + 1 && numKeys == 1
      requires keys[..1] == [k] && Ptrs() == [l, r]
      requires Represents(l, tl, n, d) && Represents(r, tr, n, d) && Footprint(l) !! Footprint(r)
      requires Own() !! Footprint(l) + Footprint(r)
      modifies this`tree, this`repr
      ensures Valid(d + 1) && tree == Fork([k], [tl, tr]) && repr == Own() + Footprint(l) + Footprint(r)
    {
      assert Owns([l, r], [tl, tr], n, d, Footprint(l) + Footprint(r));
      Adopt(d + 1, [k], [tl, tr], Footprint(l) + Footprint(r));
    }

    ghost predicate Valid(d: nat)
      reads this, repr
      decreases d, 0
    {
      && d >= 1
      && Own() <= repr
      && keys.Length == n && childrens.Length == n + 1 && numKeys <= n
      && tree.Fork? && tree.seps == keys[..numKeys] && |tree.kids| == numKeys + 1
      && Owns(Ptrs(), tree.kids, n, d - 1, repr - Own())
    }

    /** Pointer p represents the tree t at depth d. */
    static ghost predicate Represents(p: Ptr, t: Tree, n: nat, d: nat)
      reads Footprint(p), if p.InnerPtr? then {p.inner} else {}
      decreases d, 1
    {
      if d == 0 then
        p.LeafPtr? && p.leaf.Shaped(n) && t == Bottom(Tip(p.leaf, p.leaf.View()))
      else
        && p.InnerPtr? && p.inner in p.inner.repr
        && p.inner.n == n && p.inner.Valid(d) && t == p.inner.tree
    }

    static ghost predicate Inside(p: Ptr, fp: set<object>)
      reads fp
    {
      (p.InnerPtr? ==> p.inner in fp) && Footprint(p) <= fp
    }

    /** The pointers represent the trees within fp, and share no objects. */
    static ghost predicate Owns(ps: seq<Ptr>, ts: seq<Tree>, n: nat, d: nat, fp: set<object>)
      reads fp
      decreases d, 3
    {
      && |ps| == |ts|
      && (forall i {:trigger Owned(ps[i], ts[i], n, d, fp)} :: 0 <= i < |ps| ==> Owned(ps[i], ts[i], n, d, fp))
      && Apart(ps, fp)
    }

    static ghost predicate Owned(p: Ptr, t: Tree, n: nat, d: nat, fp: set<object>)
      reads fp
      decreases d, 2
    {
      Inside(p, fp) && Represents(p, t, n, d)
    }

    static ghost predicate Apart(ps: seq<Ptr>, fp: set<object>)
      reads fp
    {
      forall i, j {:trigger Strangers(ps[i], ps[j], fp)} :: 0 <= i < j < |ps| ==> Strangers(ps[i], ps[j], fp)
    }

    /** Two subtrees within fp share no objects. */
    static ghost predicate Strangers(p: Ptr, q: Ptr, fp: set<object>)
      reads fp
    {
      Inside(p, fp) && Inside(q, fp) && Footprint(p) !! Footprint(q)
    }

    /** The children other than k, away from the objects in avoid. */
    static ghost predicate Others(ps: seq<Ptr>, ts: seq<Tree>, n: nat, d: nat, k: nat, fp: set<object>,
                                  avoid: set<object>)
      reads fp
    {
      && k < |ps| == |ts|
      && (forall i {:trigger Other(ps[i], ts[i], n, d, fp, avoid)} :: 0 <= i < |ps| && i != k ==>
            Other(ps[i], ts[i], n, d, fp, avoid))
      && forall i, j {:trigger Strangers(ps[i], ps[j], fp)} :: 0 <= i < j < |ps| && i != k && j != k ==>
           Strangers(ps[i], ps[j], fp)
    }

    static ghost predicate Other(p: Ptr, t: Tree, n: nat, d: nat, fp: set<object>, avoid: set<object>)
      reads fp
    {
      Inside(p, fp) && Represents(p, t, n, d) && Footprint(p) !! avoid
    }

    /** The objects of the node itself. */
    ghost function Own(): set<object> {
      {this, keys, childrens}
    }

    ghost function Ptrs(): seq<Ptr>
      requires numKeys + 1 <= childrens.Length
      reads this, childrens
    {
      childrens[..numKeys + 1]
    }

    /** Child i of a valid node. */
    lemma ChildOk(d: nat, i: nat)
      requires Valid(d) && i <= numKeys
      ensures Represents(childrens[i], tree.kids[i], n, d - 1) && Inside(childrens[i], repr)
    {
      assert childrens[i] == Ptrs()[i];
      assert Owned(Ptrs()[i], tree.kids[i], n, d - 1, repr - Own());
    }

    method FindChildrenIdx(k: Key) returns (i: nat)
      requires keys.Length == n && numKeys <= n
      ensures i == ChildIdx(keys[..numKeys], k)
    {
      i := 0;
      while i < numKeys
        invariant i <= numKeys
        invariant forall j :: 0 <= j < i ==> keys[j] <= k
      {
        if k < keys[i] {
          ChildIdxIs(keys[..numKeys], k, i);
          return;
        }
        i := i + 1;
      }
      ChildIdxIs(keys[..numKeys], k, i);
    }

    /** find_children: the child that k leads to. */
    method FindChild(k: Key, ghost d: nat) returns (p: Ptr, ghost t: Tree)
      requires Valid(d) && Shaped(tree, n, d)
      ensures Inside(p, repr) && Represents(p, t, n, d - 1)
      ensures Shaped(t, n, d - 1) && FindTip(t, n, d - 1, k) == FindTip(tree, n, d, k)
    {
      var i := FindChildrenIdx(k);
      ChildOk(d, i);
      p := childrens[i];
      t := tree.kids[i];
    }

    /** Copy the entries after position m to the empty node next. */
    method CopyAfterNTo(next: Inner, m: nat)
      requires keys.Length == n && childrens.Length == n + 1 && m <= numKeys <= n
      requires next.keys.Length == n && next.childrens.Length == n + 1 && next.numKeys == 0
      requires next.keys != keys && next.childrens != childrens
      modifies next`numKeys, next.keys, next.childrens
      ensures next.numKeys == numKeys - m
      ensures next.keys[..next.numKeys] == keys[m..numKeys]
      ensures next.childrens[..next.numKeys + 1] == childrens[m..numKeys + 1]
    {
      var copied := 0;
      var i := m;
      while i < numKeys
        invariant m <= i <= numKeys && copied == i - m
        invariant forall j :: 0 <= j < copied ==> next.keys[j] == keys[m + j] && next.childrens[j] == childrens[m + j]
      {
        next.keys[i - m] := keys[i];
        next.childrens[i - m] := childrens[i];
        i := i + 1;
        copied := copied + 1;
      }
      next.numKeys := copied;
      next.childrens[next.numKeys] := childrens[numKeys];
    }

    /** Insert separator k and the child right of it at pos. */
    method InsertAtPos(k: Key, p: Ptr, pos: nat)
      requires keys.Length == n && childrens.Length == n + 1 && pos <= numKeys < n
      modifies this`numKeys, keys, childrens
      ensures numKeys == old(numKeys) + 1
      ensures keys[..numKeys] == Inserted(old(keys[..numKeys]), pos, k)
      ensures Ptrs() == Inserted(old(Ptrs()), pos + 1, p)
    {
      ShiftFrom(pos);
      keys[pos] := k;
      childrens[pos + 1] := p;
      numKeys := numKeys + 1;
      InsertedIs(old(keys[..numKeys]), keys[..numKeys], pos, k);
      InsertedIs(old(Ptrs()), Ptrs(), pos + 1, p);
    }

    /** Make room for an entry at pos. */
    method ShiftFrom(pos: nat)
      requires keys.Length == n && childrens.Length == n + 1 && pos <= numKeys < n
      modifies keys, childrens
      ensures forall j :: 0 <= j < pos ==> keys[j] == old(keys[j])
      ensures forall j :: pos < j <= numKeys ==> keys[j] == old(keys[j - 1])
      ensures forall j :: 0 <= j <= pos ==> childrens[j] == old(childrens[j])
      ensures forall j :: pos + 1 < j <= numKeys + 1 ==> childrens[j] == old(childrens[j - 1])
    {
      var i := numKeys;
      while i > pos
        invariant pos <= i <= numKeys
        invariant forall j :: 0 <= j < i ==> keys[j] == old(keys[j])
        invariant forall j :: i < j <= numKeys ==> keys[j] == old(keys[j - 1])
        invariant forall j :: 0 <= j <= i ==> childrens[j] == old(childrens[j])
        invariant forall j :: i + 1 < j <= numKeys + 1 ==> childrens[j] == old(childrens[j - 1])
      {
        keys[i] := keys[i - 1];
        childrens[i + 1] := childrens[i];
        i := i - 1;
      }
    }

    /** Insert below one pointer: into the leaf, or into the inner node, it
        points to. */
    static method InsertPtr(n: nat, p: Ptr, ghost t: Tree, key: Key, v: Value, d: nat, candidate: Leaf, ghost lo: Key,
                            ghost hi: Key)
      returns (kid: Ptr, up: Key, split: bool, ghost r: Insertion)
      requires Represents(p, t, n, d) && Insertable(n, d, t, lo, hi, key)
      requires candidate.Shaped(n) && candidate.View().Blank(n) && candidate.Footprint() !! Footprint(p)
      modifies Footprint(p), candidate.Footprint()
      ensures r == InsertT(n, d, t, key, v, Tip(candidate, old(candidate.View())))
      ensures Outcome(n, d, p, r, kid, up)
      ensures split == FindTip(t, n, d, key).page.Full()
      ensures fresh(Footprint(p) + Footprint(kid) - old(Footprint(p)) - candidate.Footprint())
      ensures !split ==>
        kid == Null && Footprint(p) !! candidate.Footprint() && candidate.View() == old(candidate.View())
      decreases d, 3
    {
      r := InsertT(n, d, t, key, v, Tip(candidate, candidate.View()));
      kid := Null;
      up := 0;
      if d == 0 {
        split := p.leaf.RawInsert(n, key, v, candidate);
        if split {
          kid := LeafPtr(candidate);
          up := candidate.keys[0];
        }
      } else {
        var newIn;
        newIn, split := p.inner.Insert(key, v, d, candidate, lo, hi);
        if newIn != null {
          kid := InnerPtr(newIn);
          up := newIn.upKey;
        }
      }
    }

    /** Pointer p, and the new sibling kid if there is one, represent r. */
    static ghost predicate Outcome(n: nat, d: nat, p: Ptr, r: Insertion, kid: Ptr, up: Key)
      reads Footprint(p), if p.InnerPtr? then {p.inner} else {}
      reads Footprint(kid), if kid.InnerPtr? then {kid.inner} else {}
    {
      && Represents(p, r.tree, n, d)
      && (kid == Null <==> r.sib.NoSib?)
      && (kid != Null ==> up == r.sib.up && Represents(kid, r.sib.tree, n, d) && Footprint(p) !! Footprint(kid))
    }

    /** This node, and its new sibling if there is one, represent g and share
        nothing. */
    ghost predicate Grown(depth: nat, newSib: Inner?, g: Insertion)
      reads this, repr, newSib, if newSib != null then newSib.repr else {}
    {
      && Valid(depth) && tree == g.tree
      && (newSib == null <==> g.sib.NoSib?)
      && (newSib != null ==>
            && newSib.n == n && newSib.Valid(depth) && newSib.repr !! repr
            && newSib.upKey == g.sib.up && newSib.tree == g.sib.tree)
    }

    /** A node whose child k has taken an insert: the slots are those of t0, the
        child and its new sibling represent r, the other children are as they
        were. */
    ghost predicate Pending(k: nat, kid: Ptr, up: Key, depth: nat, t0: Tree, r: Insertion, fp: set<object>)
      reads this, keys, childrens, fp
    {
      && depth >= 1 && n >= 2 && k <= numKeys <= n && keys.Length == n && childrens.Length == n + 1
      && t0.Fork? && t0.seps == keys[..numKeys] && |t0.kids| == numKeys + 1
      && Own() !! fp && Inside(childrens[k], fp) && Inside(kid, fp)
      && Outcome(n, depth - 1, childrens[k], r, kid, up)
      && Others(Ptrs(), t0.kids, n, depth - 1, k, fp, Footprint(childrens[k]) + Footprint(kid))
    }

    /** Insert below child k, which represents t; the other children stay as
        they are. */
    method InsertChild(k: nat, ghost t: Tree, key: Key, v: Value, depth: nat, candidate: Leaf, ghost lo: Key,
                       ghost hi: Key)
      returns (kid: Ptr, up: Key, split: bool, ghost r: Insertion, ghost fp: set<object>)
      requires Valid(depth) && n >= 2 && k <= numKeys && t == tree.kids[k] && Insertable(n, depth - 1, t, lo, hi, key)
      requires candidate.Shaped(n) && candidate.View().Blank(n) && candidate.Footprint() !! repr
      modifies repr - Own(), candidate.Footprint()
      ensures r == InsertT(n, depth - 1, t, key, v, Tip(candidate, old(candidate.View())))
      ensures Pending(k, kid, up, depth, tree, r, fp)
      ensures split == FindTip(t, n, depth - 1, key).page.Full()
      ensures fresh(fp - (old(repr) - Own()) - candidate.Footprint())
      ensures !split ==> kid == Null && fp !! candidate.Footprint() && candidate.View() == old(candidate.View())
      decreases depth, 0
    {
      ghost var ps, ts, inside := Ptrs(), tree.kids, repr - Own();
      var p := childrens[k];
      assert p == ps[k];
      OwnsOthers(ps, ts, n, depth - 1, k, inside, candidate.Footprint());
      kid, up, split, r, fp := InsertAmong(n, p, ps, ts, inside, k, key, v, depth - 1, candidate, lo, hi);
    }

    /** Insert below pointer k of ps, the others untouched. */
    static method InsertAmong(n: nat, p: Ptr, ghost ps: seq<Ptr>, ghost ts: seq<Tree>,
                              ghost inside: set<object>, ghost k: nat, key: Key, v: Value, d: nat,
                              candidate: Leaf, ghost lo: Key, ghost hi: Key)
      returns (kid: Ptr, up: Key, split: bool, ghost r: Insertion, ghost fp: set<object>)
      requires k < |ps| == |ts| && p == ps[k] && Inside(p, inside)
      requires Represents(p, ts[k], n, d) && Insertable(n, d, ts[k], lo, hi, key)
      requires Others(ps, ts, n, d, k, inside, Footprint(p) + candidate.Footprint())
      requires candidate.Shaped(n) && candidate.View().Blank(n) && candidate.Footprint() !! inside
      modifies Footprint(p), candidate.Footprint()
      ensures r == InsertT(n, d, ts[k], key, v, Tip(candidate, old(candidate.View())))
      ensures Outcome(n, d, p, r, kid, up)
      ensures Others(ps, ts, n, d, k, fp, Footprint(p) + Footprint(kid))
      ensures Inside(p, fp) && Inside(kid, fp)
      ensures split == FindTip(ts[k], n, d, key).page.Full()
      ensures inside <= fp && fresh(fp - inside - candidate.Footprint())
      ensures !split ==> kid == Null && fp !! candidate.Footprint() && candidate.View() == old(candidate.View())
      decreases d, 4
    {
      kid, up, split, r := InsertPtr(n, p, ts[k], key, v, d, candidate, lo, hi);
      fp := inside + Footprint(p) + Footprint(kid);
      forall i | 0 <= i < |ps| && i != k ensures Other(ps[i], ts[i], n, d, fp, Footprint(p) + Footprint(kid)) {
        assert old(Other(ps[i], ts[i], n, d, inside, Footprint(p) + candidate.Footprint()));
      }
      forall i, j | 0 <= i < j < |ps| && i != k && j != k ensures Strangers(ps[i], ps[j], fp) {
        assert old(Strangers(ps[i], ps[j], inside));
        assert old(Other(ps[i], ts[i], n, d, inside, Footprint(p) + candidate.Footprint()));
        assert old(Other(ps[j], ts[j], n, d, inside, Footprint(p) + candidate.Footprint()));
      }
    }

    /** The recursive insert: the subtree becomes what InsertT computes, the new
        sibling, if any, what it splits off. */
    method Insert(key: Key, v: Value, depth: nat, candidate: Leaf, ghost lo: Key, ghost hi: Key)
      returns (newSib: Inner?, split: bool)
      requires Valid(depth) && Insertable(n, depth, tree, lo, hi, key)
      requires candidate.Shaped(n) && candidate.View().Blank(n) && candidate.Footprint() !! repr
      modifies repr, candidate.Footprint()
      ensures Grown(depth, newSib, InsertT(n, depth, old(tree), key, v, Tip(candidate, old(candidate.View()))))
      ensures split == FindTip(old(tree), n, depth, key).page.Full()
      ensures fresh(repr - old(repr) - candidate.Footprint())
      ensures newSib != null ==> fresh(newSib.repr - old(repr) - candidate.Footprint())
      ensures !split ==> newSib == null && repr !! candidate.Footprint() && candidate.View() == old(candidate.View())
      decreases depth, 2
    {
      ghost var t0, cand := tree, Tip(candidate, candidate.View());
      var k := FindChildrenIdx(key);
      NodeInsert(n, depth, t0, k, key, v, cand, lo, hi);
      newSib, split := InsertBelow(k, t0, key, v, depth, candidate,
                                   Fence(lo, t0.seps, hi, k), Fence(lo, t0.seps, hi, k + 1));
    }

    /** Insert below child k and bring this node up to date. */
    method InsertBelow(k: nat, ghost t0: Tree, key: Key, v: Value, depth: nat, candidate: Leaf, ghost lo: Key,
                       ghost hi: Key)
      returns (newSib: Inner?, split: bool)
      requires Valid(depth) && n >= 2 && k <= numKeys && t0 == tree && Insertable(n, depth - 1, t0.kids[k], lo, hi, key)
      requires candidate.Shaped(n) && candidate.View().Blank(n) && candidate.Footprint() !! repr
      requires var r := InsertT(n, depth - 1, t0.kids[k], key, v, Tip(candidate, candidate.View()));
        |t0.seps| == n && r.sib.Sib? ==> RightSide(n, t0.seps, k, r.sib.up)
      modifies repr, candidate.Footprint()
      ensures Grown(depth, newSib, Grow(n, t0.seps, t0.kids, k,
        InsertT(n, depth - 1, t0.kids[k], key, v, Tip(candidate, old(candidate.View())))))
      ensures split == FindTip(t0.kids[k], n, depth - 1, key).page.Full()
      ensures fresh(repr - old(repr) - candidate.Footprint())
      ensures newSib != null ==> fresh(newSib.repr - old(repr) - candidate.Footprint())
      ensures !split ==> newSib == null && repr !! candidate.Footprint() && candidate.View() == old(candidate.View())
      decreases depth, 1
    {
      var kid, up;
      ghost var fp;
      ghost var r;
      kid, up, split, r, fp := InsertChild(k, t0.kids[k], key, v, depth, candidate, lo, hi);
      newSib := TakeResult(k, kid, up, depth, t0, r, fp);
    }

    /** Bring this node up to date after the insert below child k. */
    method TakeResult(k: nat, kid: Ptr, up: Key, depth: nat, ghost t0: Tree, ghost r: Insertion, ghost fp: set<object>)
      returns (newSib: Inner?)
      requires Pending(k, kid, up, depth, t0, r, fp)
      requires |t0.seps| == n && r.sib.Sib? ==> RightSide(n, t0.seps, k, r.sib.up)
      modifies this, keys, childrens
      ensures Grown(depth, newSib, Grow(n, t0.seps, t0.kids, k, r))
      ensures repr <= Own() + fp && (newSib != null ==> fresh(newSib.repr - fp))
    {
      ghost var ps := Ptrs();
      assert childrens[k] == ps[k];
      OwnsReplaced(ps, t0.kids, n, depth - 1, k, fp, Footprint(ps[k]) + Footprint(kid), r.tree);
      if kid == Null {
        newSib := null;
        Adopt(depth, t0.seps, t0.kids[k := r.tree], fp);
      } else {
        OwnsInsert(ps, t0.kids[k := r.tree], n, depth - 1, fp, k, kid, r.sib.tree);
        newSib := PlaceChild(up, kid, k, depth, t0, r, fp);
      }
    }

    /** Store the new child kid behind child k, splitting this node if full. */
    method PlaceChild(up: Key, kid: Ptr, k: nat, depth: nat, ghost t0: Tree, ghost r: Insertion, ghost fp: set<object>)
      returns (newSib: Inner?)
      requires depth >= 1 && n >= 2 && k <= numKeys <= n && keys.Length == n && childrens.Length == n + 1
      requires t0.Fork? && t0.seps == keys[..numKeys] && |t0.kids| == numKeys + 1
      requires r.sib.Sib? && up == r.sib.up
      requires numKeys == n ==> RightSide(n, t0.seps, k, up)
      requires Own() !! fp
      requires var o := InsertAt(t0.seps, t0.kids[k := r.tree], k, up, r.sib.tree);
        Owns(Inserted(Ptrs(), k + 1, kid), o.kids, n, depth - 1, fp)
      modifies this, keys, childrens
      ensures Grown(depth, newSib, Grow(n, t0.seps, t0.kids, k, r))
      ensures repr <= Own() + fp && (newSib != null ==> fresh(newSib.repr - fp))
    {
      newSib := null;
      ghost var o := InsertAt(t0.seps, t0.kids[k := r.tree], k, up, r.sib.tree);
      if numKeys == n {
        AddChildCut(n, t0.seps, t0.kids[k := r.tree], k, up, r.sib.tree);
        newSib := SplitNode(up, kid, k, depth, o, fp);
      } else {
        ghost var ps := Ptrs();
        InsertAtPos(up, kid, k);
        assert Ptrs() == Inserted(ps, k + 1, kid);
        Adopt(depth, o.seps, o.kids, fp);
      }
    }

    /** A full node and its new entry become two nodes: the value o of the
        overfull node, cut. */
    method SplitNode(up: Key, kid: Ptr, k: nat, depth: nat, ghost o: Tree, ghost fp: set<object>)
      returns (newSib: Inner)
      requires depth >= 1 && n >= 2 && k <= numKeys == n && keys.Length == n && childrens.Length == n + 1
      requires RightSide(n, keys[..numKeys], k, up)
      requires o.Fork? && o.seps == Inserted(keys[..numKeys], k, up)
      requires Own() !! fp && Owns(Inserted(Ptrs(), k + 1, kid), o.kids, n, depth - 1, fp)
      modifies this, keys, childrens
      ensures |o.kids| == |o.seps| + 1 == n + 2
      ensures Valid(depth) && newSib.n == n && newSib.Valid(depth) && newSib.repr !! repr
      ensures var r := CutAt(o, CutPoint(n, k));
        tree == r.tree && newSib.upKey == r.sib.up && newSib.tree == r.sib.tree
      ensures repr <= Own() + fp && fresh(newSib.repr - fp)
    {
      ghost var ps, s := Inserted(Ptrs(), k + 1, kid), CutPoint(n, k);
      ghost var a, b := OwnsCut(ps, o.kids, n, depth - 1, fp, s + 1);
      newSib := SplitParts(up, kid, k, depth, ps, o, a, b);
    }

    method SplitParts(up: Key, kid: Ptr, k: nat, depth: nat,
                      ghost ps: seq<Ptr>, ghost o: Tree, ghost a: set<object>, ghost b: set<object>)
      returns (newSib: Inner)
      requires depth >= 1 && n >= 2 && k <= numKeys == n && keys.Length == n && childrens.Length == n + 1
      requires RightSide(n, keys[..numKeys], k, up)
      requires Own() !! a + b && a !! b && ps == Inserted(Ptrs(), k + 1, kid)
      requires o.Fork? && o.seps == Inserted(keys[..numKeys], k, up) && |o.kids| == n + 2
      requires Owns(ps[..CutPoint(n, k) + 1], o.kids[..CutPoint(n, k) + 1], n, depth - 1, a)
      requires Owns(ps[CutPoint(n, k) + 1..], o.kids[CutPoint(n, k) + 1..], n, depth - 1, b)
      modifies this, keys, childrens
      ensures Valid(depth) && newSib.n == n && newSib.Valid(depth) && newSib.repr !! repr
      ensures var r := CutAt(o, CutPoint(n, k));
        tree == r.tree && newSib.upKey == r.sib.up && newSib.tree == r.sib.tree
      ensures repr <= Own() + a && fresh(newSib.repr - b)
    {
      newSib := SplitOwned(up, kid, k, depth - 1, ps, o.kids, a, b);
      AdoptBoth(newSib, depth, CutAt(o, CutPoint(n, k)), a, b);
    }

    /** Both nodes own what their slots lead to. */
    method SplitOwned(up: Key, kid: Ptr, k: nat, d: nat,
                      ghost ps: seq<Ptr>, ghost kids: seq<Tree>, ghost a: set<object>, ghost b: set<object>)
      returns (newSib: Inner)
      requires n >= 2 && k <= numKeys == n && keys.Length == n && childrens.Length == n + 1
      requires RightSide(n, keys[..numKeys], k, up)
      requires Own() !! a + b && ps == Inserted(Ptrs(), k + 1, kid) && |kids| == n + 2
      requires Owns(ps[..CutPoint(n, k) + 1], kids[..CutPoint(n, k) + 1], n, d, a)
      requires Owns(ps[CutPoint(n, k) + 1..], kids[CutPoint(n, k) + 1..], n, d, b)
      modifies this`numKeys, keys, childrens
      ensures fresh(newSib) && fresh(newSib.keys) && fresh(newSib.childrens)
      ensures newSib.n == n && newSib.keys.Length == n && newSib.childrens.Length == n + 1
      ensures numKeys == CutPoint(n, k) && newSib.numKeys == n - numKeys
      ensures keys[..numKeys] == Inserted(old(keys[..numKeys]), k, up)[..numKeys]
      ensures newSib.upKey == Inserted(old(keys[..numKeys]), k, up)[numKeys]
      ensures newSib.keys[..newSib.numKeys] == Inserted(old(keys[..numKeys]), k, up)[numKeys + 1..]
      ensures Owns(Ptrs(), kids[..numKeys + 1], n, d, a) && Owns(newSib.Ptrs(), kids[numKeys + 1..], n, d, b)
    {
      newSib := SplitSlots(up, kid, k);
    }

    ghost method AdoptBoth(newSib: Inner, depth: nat, r: Insertion, a: set<object>, b: set<object>)
      requires depth >= 1 && keys.Length == n && childrens.Length == n + 1 && numKeys <= n
      requires newSib.n == n && newSib.keys.Length == n && newSib.childrens.Length == n + 1 && newSib.numKeys <= n
      requires r.tree.Fork? && r.sib.Sib? && r.sib.tree.Fork?
      requires r.tree.seps == keys[..numKeys] && Owns(Ptrs(), r.tree.kids, n, depth - 1, a)
      requires r.sib.tree.seps == newSib.keys[..newSib.numKeys] && Owns(newSib.Ptrs(), r.sib.tree.kids, n, depth - 1, b)
      requires Own() + a !! newSib.Own() + b && Own() !! a && newSib.Own() !! b
      modifies this`tree, this`repr, newSib`tree, newSib`repr
      ensures Valid(depth) && tree == r.tree && repr == Own() + a
      ensures newSib.Valid(depth) && newSib.tree == r.sib.tree && newSib.repr == newSib.Own() + b
    {
      newSib.Adopt(depth, r.sib.tree.seps, r.sib.tree.kids, b);
      Adopt(depth, r.tree.seps, r.tree.kids, a);
    }

    /** Record what the slots of this node represent. */
    ghost method Adopt(depth: nat, seps: seq<Key>, kids: seq<Tree>, fp: set<object>)
      requires depth >= 1 && keys.Length == n && childrens.Length == n + 1 && numKeys <= n
      requires seps == keys[..numKeys] && Own() !! fp && Owns(Ptrs(), kids, n, depth - 1, fp)
      modifies this`tree, this`repr
      ensures Valid(depth) && tree == Fork(seps, kids) && repr == Own() + fp
    {
      tree := Fork(seps, kids);
      repr := Own() + fp;
      assert repr - Own() == fp;
    }

    /** The slots of a full node, the new entry included, divided between this
        node and a new one. */
    method SplitSlots(up: Key, kid: Ptr, k: nat) returns (newSib: Inner)
      requires n >= 2 && k <= numKeys == n && keys.Length == n && childrens.Length == n + 1
      requires RightSide(n, keys[..numKeys], k, up)
      modifies this`numKeys, keys, childrens
      ensures fresh(newSib) && fresh(newSib.keys) && fresh(newSib.childrens)
      ensures newSib.n == n && newSib.keys.Length == n && newSib.childrens.Length == n + 1
      ensures var s, ks, ps := CutPoint(n, k), Inserted(old(keys[..numKeys]), k, up), Inserted(old(Ptrs()), k + 1, kid);
        && numKeys == s && keys[..numKeys] == ks[..s] && Ptrs() == ps[..s + 1]
        && newSib.upKey == ks[s]
        && newSib.numKeys == n - s && newSib.keys[..n - s] == ks[s + 1..] && newSib.Ptrs() == ps[s + 1..]
      ensures var h := (n + 1) / 2;
        newSib.upKey == old(keys[h - 1]) && numKeys == (if k < h then h else h - 1)
    {
      ghost var ks, qs := keys[..numKeys], Ptrs();
      var threshold := Threshold(n);
      newSib := HalveSlots(threshold);
      if up >= newSib.upKey {
        assert k >= threshold && CutPoint(n, k) == threshold - 1;
        SlotsCutBehind(n, ks, qs, k, up, kid);
        newSib.AddBehind(up, kid, k, threshold, ks, qs);
      } else {
        assert CutPoint(n, k) == threshold;
        SlotsCutBefore(n, ks, qs, k, up, kid);
        AddBefore(up, kid, k, threshold, ks, qs);
      }
    }

    /** The right half of ks and qs takes the entry of position k. */
    method AddBehind(up: Key, kid: Ptr, k: nat, t: nat, ghost ks: seq<Key>, ghost qs: seq<Ptr>)
      requires 0 < t <= k <= |ks| == n && |qs| == n + 1 && keys.Length == n && childrens.Length == n + 1
      requires numKeys == n - t && keys[..numKeys] == ks[t..] && Ptrs() == qs[t..]
      modifies this`numKeys, keys, childrens
      ensures numKeys == n - t + 1
      ensures keys[..numKeys] == Inserted(ks, k, up)[t..] && Ptrs() == Inserted(qs, k + 1, kid)[t..]
    {
      InsertAtPos(up, kid, k - t);
      InsertedBehind(ks, k, up, t);
      InsertedBehind(qs, k + 1, kid, t);
    }

    /** The left half of ks and qs takes the entry of position k. */
    method AddBefore(up: Key, kid: Ptr, k: nat, t: nat, ghost ks: seq<Key>, ghost qs: seq<Ptr>)
      requires k < t <= |ks| == n && |qs| == n + 1 && keys.Length == n && childrens.Length == n + 1
      requires numKeys == t - 1 && keys[..numKeys] == ks[..t - 1] && Ptrs() == qs[..t]
      modifies this`numKeys, keys, childrens
      ensures numKeys == t
      ensures keys[..numKeys] == Inserted(ks, k, up)[..t] && Ptrs() == Inserted(qs, k + 1, kid)[..t + 1]
    {
      InsertAtPos(up, kid, k);
      InsertedBefore(ks, k, up, t - 1);
      InsertedBefore(qs, k + 1, kid, t);
    }

    /** Move the entries after the threshold to a new node; the separator in
        between is the one to go up. */
    method HalveSlots(threshold: nat) returns (newSib: Inner)
      requires n >= 2 && numKeys == n && keys.Length == n && childrens.Length == n + 1
      requires threshold == (n + 1) / 2
      modifies this`numKeys
      ensures fresh(newSib) && fresh(newSib.keys) && fresh(newSib.childrens)
      ensures newSib.n == n && newSib.keys.Length == n && newSib.childrens.Length == n + 1
      ensures var ks, qs := old(keys[..numKeys]), old(Ptrs());
        && numKeys == threshold - 1 && keys[..numKeys] == ks[..threshold - 1] && Ptrs() == qs[..threshold]
        && newSib.upKey == ks[threshold - 1]
        && newSib.numKeys == n - threshold && newSib.keys[..newSib.numKeys] == ks[threshold..]
        && newSib.Ptrs() == qs[threshold..]
    {
      newSib := new Inner.Empty(n);
      CopyAfterNTo(newSib, threshold);
      numKeys := threshold - 1;
      newSib.upKey := keys[threshold - 1];
    }
  }

  /** The two parts of the overfull slots, in terms of the halved ones, when the
      new child belongs behind the threshold. */
  lemma SlotsCutBehind(n: nat, ks: seq<Key>, qs: seq<Ptr>, k: nat, up: Key, kid: Ptr)
    requires Threshold(n) <= k <= n == |ks| && |qs| == n + 1 && n >= 2
    ensures var t, s, ks', qs' := Threshold(n), CutPoint(n, k), Inserted(ks, k, up), Inserted(qs, k + 1, kid);
      && ks'[s] == ks[t - 1]
      && ks'[..s] == ks[..t - 1] && qs'[..s + 1] == qs[..t]
      && ks'[s + 1..] == ks'[t..] && qs'[s + 1..] == qs'[t..]
  {
    InsertedBehind(ks, k, up, Threshold(n));
    InsertedBehind(qs, k + 1, kid, Threshold(n));
  }

  /** The same when it belongs before. */
  lemma SlotsCutBefore(n: nat, ks: seq<Key>, qs: seq<Ptr>, k: nat, up: Key, kid: Ptr)
    requires k < Threshold(n) && n == |ks| && |qs| == n + 1 && n >= 2
    ensures var t, s, ks', qs' := Threshold(n), CutPoint(n, k), Inserted(ks, k, up), Inserted(qs, k + 1, kid);
      && ks'[s] == ks[t - 1]
      && ks'[..s] == ks'[..t] && qs'[..s + 1] == qs'[..t + 1]
      && ks'[s + 1..] == ks[t..] && qs'[s + 1..] == qs[t..]
  {
    InsertedBefore(ks, k, up, Threshold(n) - 1);
    InsertedBefore(qs, k + 1, kid, Threshold(n));
  }

  lemma InsertedBehind<T>(s: seq<T>, i: nat, x: T, t: nat)
    requires 0 < t <= i <= |s|
    ensures Inserted(s, i, x)[..t] == s[..t] && Inserted(s, i, x)[..t - 1] == s[..t - 1]
    ensures Inserted(s, i, x)[t - 1] == s[t - 1]
    ensures Inserted(s, i, x)[t..] == Inserted(s[t..], i - t, x)
  {}

  lemma InsertedBefore<T>(s: seq<T>, i: nat, x: T, t: nat)
    requires i <= t <= |s|
    ensures Inserted(s, i, x)[..t + 1] == Inserted(s[..t], i, x)
    ensures t < |s| ==> Inserted(s, i, x)[t + 1] == s[t] && Inserted(s, i, x)[t + 2..] == s[t + 1..]
    ensures Inserted(s, i, x)[t + 1..] == s[t..]
  {}

  /** The objects of fp that some pointer leads to. */
  ghost function Reach(ps: seq<Ptr>, fp: set<object>): set<object>
    reads fp, set i | 0 <= i < |ps| && ps[i].InnerPtr? :: ps[i].inner
  {
    set o | o in fp && exists i :: 0 <= i < |ps| && o in Footprint(ps[i])
  }

  /** Any child, and the others beside it. */
  lemma OwnsOthers(ps: seq<Ptr>, ts: seq<Tree>, n: nat, d: nat, k: nat, fp: set<object>, away: set<object>)
    requires Inner.Owns(ps, ts, n, d, fp) && k < |ps| && away !! fp
    ensures Inner.Owned(ps[k], ts[k], n, d, fp)
    ensures Inner.Others(ps, ts, n, d, k, fp, Footprint(ps[k]) + away)
  {
    assert Inner.Owned(ps[k], ts[k], n, d, fp);
    forall i | 0 <= i < |ps| && i != k ensures Inner.Other(ps[i], ts[i], n, d, fp, Footprint(ps[k]) + away) {
      assert Inner.Owned(ps[i], ts[i], n, d, fp);
      assert Inner.Strangers(ps[Min(i, k)], ps[Max(i, k)], fp);
    }
    forall i, j | 0 <= i < j < |ps| && i != k && j != k ensures Inner.Strangers(ps[i], ps[j], fp) {}
  }

  /** What a pointer among ps reaches is in what they reach. */
  lemma Reached(ps: seq<Ptr>, ts: seq<Tree>, n: nat, d: nat, fp: set<object>, i: nat, qs: seq<Ptr>)
    requires Inner.Owns(ps, ts, n, d, fp) && i < |ps| && ps[i] in qs
    ensures Inner.Owned(ps[i], ts[i], n, d, Reach(qs, fp))
  {
    assert Inner.Owned(ps[i], ts[i], n, d, fp);
    assert Inner.Represents(ps[i], ts[i], n, d);
    assert ps[i].InnerPtr? ==> ps[i].inner in Footprint(ps[i]);
    var j :| 0 <= j < |qs| && qs[j] == ps[i];
  }

  lemma StrangersReached(p: Ptr, q: Ptr, fp: set<object>, fp': set<object>)
    requires Inner.Strangers(p, q, fp) && Inner.Inside(p, fp') && Inner.Inside(q, fp')
    ensures Inner.Strangers(p, q, fp')
  {}

  /** Pointers a to b own what they reach. */
  lemma OwnsPart(ps: seq<Ptr>, ts: seq<Tree>, n: nat, d: nat, fp: set<object>, a: nat, b: nat)
    requires Inner.Owns(ps, ts, n, d, fp) && a <= b <= |ps|
    ensures Inner.Owns(ps[a..b], ts[a..b], n, d, Reach(ps[a..b], fp))
  {
    var qs, us := ps[a..b], ts[a..b];
    forall i | 0 <= i < |qs| ensures Inner.Owned(qs[i], us[i], n, d, Reach(qs, fp)) {
      assert qs[i] == ps[a + i] && us[i] == ts[a + i];
      Reached(ps, ts, n, d, fp, a + i, qs);
    }
    forall i, j | 0 <= i < j < |qs| ensures Inner.Strangers(qs[i], qs[j], Reach(qs, fp)) {
      assert Inner.Strangers(ps[a + i], ps[a + j], fp);
      assert Inner.Owned(qs[i], us[i], n, d, Reach(qs, fp)) && Inner.Owned(qs[j], us[j], n, d, Reach(qs, fp));
      StrangersReached(qs[i], qs[j], fp, Reach(qs, fp));
    }
  }

  lemma ReachApart(ps: seq<Ptr>, fp: set<object>, m: nat)
    requires Inner.Apart(ps, fp) && m <= |ps|
    ensures Reach(ps[..m], fp) !! Reach(ps[m..], fp)
  {
    forall o | o in Reach(ps[..m], fp) ensures o !in Reach(ps[m..], fp) {
      var i :| 0 <= i < m && o in Footprint(ps[i]);
      forall j | 0 <= j < |ps[m..]| ensures o !in Footprint(ps[m..][j]) {
        assert Inner.Strangers(ps[i], ps[m + j], fp);
      }
    }
  }

  /** A node's children, cut behind the first m; the parts share nothing. */
  lemma OwnsCut(ps: seq<Ptr>, ts: seq<Tree>, n: nat, d: nat, fp: set<object>, m: nat)
    returns (a: set<object>, b: set<object>)
    requires Inner.Owns(ps, ts, n, d, fp) && m <= |ps|
    ensures a <= fp && b <= fp && a !! b
    ensures Inner.Owns(ps[..m], ts[..m], n, d, a) && Inner.Owns(ps[m..], ts[m..], n, d, b)
  {
    a, b := Reach(ps[..m], fp), Reach(ps[m..], fp);
    ReachApart(ps, fp, m);
    OwnsPart(ps, ts, n, d, fp, 0, m);
    OwnsPart(ps, ts, n, d, fp, m, |ps|);
    assert ps[0..m] == ps[..m] && ts[0..m] == ts[..m] && ps[m..|ps|] == ps[m..] && ts[m..|ps|] == ts[m..];
  }

  /** An insert into a node is one into the child, brought up to the node. */
  lemma NodeInsert(n: nat, depth: nat, t: Tree, k: nat, key: Key, v: Value, cand: Tip, lo: Key, hi: Key)
    requires Insertable(n, depth, t, lo, hi, key) && t.Fork? && cand.page.Blank(n) && k == ChildIdx(t.seps, key)
    ensures n >= 2 && k < |t.kids|
    ensures Insertable(n, depth - 1, t.kids[k], Fence(lo, t.seps, hi, k), Fence(lo, t.seps, hi, k + 1), key)
    ensures var r := InsertT(n, depth - 1, t.kids[k], key, v, cand);
      && InsertT(n, depth, t, key, v, cand) == Grow(n, t.seps, t.kids, k, r)
      && (|t.seps| == n && r.sib.Sib? ==> RightSide(n, t.seps, k, r.sib.up))
    ensures FindTip(t, n, depth, key) == FindTip(t.kids[k], n, depth - 1, key)
  {
    InsertableChild(n, depth, t.seps, t.kids, lo, hi, key);
    if |t.seps| == n && InsertT(n, depth - 1, t.kids[k], key, v, cand).sib.Sib? {
      SplitSideAgrees(n, depth, t.seps, t.kids, lo, hi, key, v, cand);
    }
  }

  /** Child k replaced by a new tree; the others also share nothing with the rest
      of avoid. */
  lemma OwnsReplaced(ps: seq<Ptr>, ts: seq<Tree>, n: nat, d: nat, k: nat, fp: set<object>, avoid: set<object>, t: Tree)
    requires k < |ps| && Inner.Inside(ps[k], fp) && Inner.Represents(ps[k], t, n, d) && Footprint(ps[k]) <= avoid
    requires Inner.Others(ps, ts, n, d, k, fp, avoid)
    ensures Inner.Owns(ps, ts[k := t], n, d, fp)
    ensures forall i :: 0 <= i < |ps| && i != k ==> Footprint(ps[i]) !! avoid
  {
    forall i | 0 <= i < |ps|
        ensures Inner.Owned(ps[i], ts[k := t][i], n, d, fp) && (i != k ==> Footprint(ps[i]) !! avoid) {
      if i != k {
        assert Inner.Other(ps[i], ts[i], n, d, fp, avoid);
      }
    }
    forall i, j | 0 <= i < j < |ps| ensures Inner.Strangers(ps[i], ps[j], fp) {
      assert i != k ==> Inner.Other(ps[i], ts[i], n, d, fp, avoid);
      assert j != k ==> Inner.Other(ps[j], ts[j], n, d, fp, avoid);
      assert i != k && j != k ==> Inner.Strangers(ps[i], ps[j], fp);
    }
  }

  /** A new child behind child k, sharing nothing with the others. */
  lemma OwnsInsert(ps: seq<Ptr>, ts: seq<Tree>, n: nat, d: nat, fp: set<object>, k: nat, kid: Ptr, t: Tree)
    requires Inner.Owns(ps, ts, n, d, fp) && k < |ps|
    requires Inner.Owned(kid, t, n, d, fp)
    requires forall i :: 0 <= i < |ps| ==> Footprint(ps[i]) !! Footprint(kid)
    ensures Inner.Owns(Inserted(ps, k + 1, kid), Inserted(ts, k + 1, t), n, d, fp)
  {
    var ps', ts' := Inserted(ps, k + 1, kid), Inserted(ts, k + 1, t);
    forall i | 0 <= i < |ps'| ensures Inner.Owned(ps'[i], ts'[i], n, d, fp) {
      assert i <= k ==> ps'[i] == ps[i] && ts'[i] == ts[i] && Inner.Owned(ps[i], ts[i], n, d, fp);
      assert i > k + 1 ==> ps'[i] == ps[i - 1] && ts'[i] == ts[i - 1] && Inner.Owned(ps[i - 1], ts[i - 1], n, d, fp);
    }
    forall i | 0 <= i < |ps| ensures Inner.Inside(ps[i], fp) {
      assert Inner.Owned(ps[i], ts[i], n, d, fp);
    }
    ApartInsert(ps, fp, k, kid);
  }

  lemma ApartInsert(ps: seq<Ptr>, fp: set<object>, k: nat, kid: Ptr)
    requires Inner.Apart(ps, fp) && k < |ps| && Inner.Inside(kid, fp)
    requires forall i :: 0 <= i < |ps| ==> Footprint(ps[i]) !! Footprint(kid)
    requires forall i :: 0 <= i < |ps| ==> Inner.Inside(ps[i], fp)
    ensures Inner.Apart(Inserted(ps, k + 1, kid), fp)
  {
    var ps' := Inserted(ps, k + 1, kid);
    forall i, j | 0 <= i < j < |ps'| ensures Inner.Strangers(ps'[i], ps'[j], fp) {
      if i != k + 1 && j != k + 1 {
        assert Inner.Strangers(ps[if i <= k then i else i - 1], ps[if j <= k then j else j - 1], fp);
      }
    }
  }

  /** s has x inserted at pos, seen element by element. */
  lemma InsertedIs<T>(before: seq<T>, after: seq<T>, pos: nat, x: T)
    requires |after| == |before| + 1 && pos <= |before|
    requires forall j :: 0 <= j < pos ==> after[j] == before[j]
    requires after[pos] == x
    requires forall j :: pos < j < |after| ==> after[j] == before[j - 1]
    ensures after == Inserted(before, pos, x)
  {}

  lemma ChildIdxIs(seps: seq<Key>, k: Key, i: nat)
    requires i <= |seps|
    requires forall j :: 0 <= j < i ==> seps[j] <= k
    requires i < |seps| ==> k < seps[i]
    ensures ChildIdx(seps, k) == i
  {
    var c := ChildIdx(seps, k);
    assert !(c < i);
  }
}
