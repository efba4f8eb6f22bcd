/** Leaves of the tree (XNode): unsorted slots, an incarnation counter and the
    link to the next leaf.

    The state of a leaf is the value Page.  Adding a key and splitting a full
    leaf are functions on pages; the class Leaf changes its arrays in place and
    is proved to compute exactly those functions.  What the functions achieve
    (nothing lost, the halves separated by the pivot, slots kept) is proved by
    the lemmas in between. */
module XNode {
  import opened Keys
  import opened Sorting

  // incarnation is a u16
  const INCAR_LIMIT := 0x1_0000

  datatype Page = Page(keys: seq<Key>, vals: seq<Value>, incar: nat, next: Leaf?)
  {
    ghost predicate Valid(n: nat) {
      |keys| == n && |vals| == n && Distinct(keys)
    }

    predicate Full() {
      INVALID !in keys
    }

    /** The pairs stored in the page. */
    ghost function Entries(): map<Key, Value>
      requires |keys| == |vals|
    {
      map k | k in KeySet(keys) :: vals[First(keys, k)]
    }

    /** A leaf that has just been allocated: every slot empty, the values
        whatever the memory held. */
    ghost predicate Blank(n: nat) {
      |keys| == n && |vals| == n && (forall i :: 0 <= i < n ==> keys[i] == INVALID)
    }
  }

  /** Slot k sits in, if any (XNodeKeys::search). */
  function Search(p: Page, k: Key): Option<nat> {
    var i := First(p.keys, k);
    if i < |p.keys| then Some(i) else None
  }

  /** What a reader of the page gets for k. */
  function PageGet(p: Page, k: Key): Option<Value>
    requires |p.keys| == |p.vals|
  {
    match Search(p, k)
    case Some(i) => Some(p.vals[i])
    case None => None
  }

  /** Store (k, v) in the first empty slot; a full page is left alone. */
  function Put(p: Page, k: Key, v: Value): Page
    requires |p.keys| == |p.vals|
  {
    var i := First(p.keys, INVALID);
    if i < |p.keys| then p.(keys := p.keys[i := k], vals := p.vals[i := v]) else p
  }

  function Clear(p: Page, i: nat): Page
    requires i < |p.keys|
  {
    p.(keys := p.keys[i := INVALID])
  }

  /** Slot of the key of middle rank. */
  function MedianSlot(keys: seq<Key>): (i: nat)
    requires |keys| > 0
    ensures i < |keys| && keys[i] == Sort(keys)[|keys| / 2]
  {
    SortOk(keys);
    SortMembers(keys);
    assert Sort(keys)[|keys| / 2] in keys;
    First(keys, Sort(keys)[|keys| / 2])
  }

  /** Slot i of p moves to c if its key is above the pivot. */
  function MoveStep(p: Page, c: Page, pivot: Key, i: nat): (r: (Page, Page))
    requires |p.keys| == |p.vals| && |c.keys| == |c.vals| && i < |p.keys|
    ensures |r.0.keys| == |r.0.vals| == |p.keys| && |r.1.keys| == |r.1.vals| == |c.keys|
  {
    if p.keys[i] != INVALID && p.keys[i] > pivot then (Clear(p, i), Put(c, p.keys[i], p.vals[i])) else (p, c)
  }

  /** From slot i on, move every key above the pivot from p to c. */
  function MoveAbove(p: Page, c: Page, pivot: Key, i: nat): (r: (Page, Page))
    requires |p.keys| == |p.vals| && |c.keys| == |c.vals| && i <= |p.keys|
    ensures |r.0.keys| == |r.0.vals| == |p.keys| && |r.1.keys| == |r.1.vals| == |c.keys|
    decreases |p.keys| - i
  {
    if i == |p.keys| then (p, c)
    else
      var (p', c') := MoveStep(p, c, pivot, i);
      MoveAbove(p', c', pivot, i + 1)
  }

  /** The pages once the pivot has left slot m of p for c. */
  function PivotMoved(p: Page, c: Page): (Page, Page)
    requires |p.keys| == |p.vals| > 0 && |c.keys| == |c.vals|
  {
    var m := MedianSlot(p.keys);
    (Clear(p, m).(incar := (p.incar + 1) % INCAR_LIMIT), Put(c, p.keys[m], p.vals[m]))
  }

  /** The pages once everything from the pivot up has left p for c. */
  function Halves(p: Page, c: Page): (r: (Page, Page))
    requires |p.keys| == |p.vals| > 0 && |c.keys| == |c.vals|
    ensures |r.0.keys| == |r.0.vals| == |p.keys| && |r.1.keys| == |r.1.vals| == |c.keys|
  {
    var (p1, c1) := PivotMoved(p, c);
    MoveAbove(p1, c1, p.keys[MedianSlot(p.keys)], 0)
  }

  datatype LeafResult = LeafResult(left: Page, right: Page, split: bool)

  /** Insert (k, v) into page p, splitting into the candidate leaf cand, whose
      page is c, when p is full. */
  function LeafInsert(p: Page, cand: Leaf, c: Page, k: Key, v: Value): LeafResult
    requires |p.keys| == |p.vals| > 0 && |c.keys| == |c.vals|
  {
    if !p.Full() then LeafResult(Put(p, k, v), c, false)
    else
      var (l, r) := Halves(p, c);
      var pivot := p.keys[MedianSlot(p.keys)];
      var l' := if k > pivot then l else Put(l, k, v);
      var r' := if k > pivot then Put(r, k, v) else r;
      LeafResult(l'.(next := cand), r'.(next := p.next), true)
  }

  // ---------- what storing and splitting achieve ----------

  lemma PutSlots(p: Page, n: nat, k: Key, v: Value)
    requires p.Valid(n) && !p.Full()
    ensures var i, q := First(p.keys, INVALID), Put(p, k, v);
      && i < n && q.keys[i] == k && q.vals[i] == v && |q.keys| == |q.vals| == n
      && (forall j :: 0 <= j < n && j != i ==> q.keys[j] == p.keys[j] && q.vals[j] == p.vals[j])
  {}

  lemma PutValid(p: Page, n: nat, k: Key, v: Value)
    requires p.Valid(n) && !p.Full() && k !in p.keys && k != INVALID
    ensures Put(p, k, v).Valid(n)
    ensures KeySet(Put(p, k, v).keys) == KeySet(p.keys) + {k}
  {
    PutSlots(p, n, k, v);
    var i, q := First(p.keys, INVALID), Put(p, k, v);
    DistinctSpread(p.keys);
    DistinctSpread(q.keys);
    forall x | x != INVALID ensures x in q.keys <==> x in p.keys || x == k {
      if x in p.keys {
        var j :| 0 <= j < n && p.keys[j] == x;
        assert q.keys[j] == x;
      }
      if x == k { assert q.keys[i] == x; }
    }
  }

  /** Storing a new key adds exactly that pair. */
  lemma PutEntries(p: Page, n: nat, k: Key, v: Value)
    requires p.Valid(n) && !p.Full() && k !in p.keys && k != INVALID
    ensures Put(p, k, v).Valid(n)
    ensures Put(p, k, v).Entries() == p.Entries()[k := v]
  {
    PutSlots(p, n, k, v);
    PutValid(p, n, k, v);
    var q := Put(p, k, v);
    FirstOf(q.keys, First(p.keys, INVALID));
    forall x | x in KeySet(p.keys) ensures q.Entries()[x] == p.Entries()[x] {
      FirstOf(q.keys, First(p.keys, x));
    }
  }

  lemma ClearValid(p: Page, n: nat, i: nat)
    requires p.Valid(n) && i < n && p.keys[i] != INVALID
    ensures Clear(p, i).Valid(n)
    ensures KeySet(Clear(p, i).keys) == KeySet(p.keys) - {p.keys[i]}
  {
    var q := Clear(p, i);
    DistinctSpread(p.keys);
    DistinctSpread(q.keys);
    forall x | x != INVALID ensures x in q.keys <==> x in p.keys && x != p.keys[i] {
      if x in p.keys && x != p.keys[i] {
        var j :| 0 <= j < n && p.keys[j] == x;
        assert q.keys[j] == x;
      }
    }
  }

  /** Emptying a slot removes exactly the pair stored there. */
  lemma ClearEntries(p: Page, n: nat, i: nat)
    requires p.Valid(n) && i < n && p.keys[i] != INVALID
    ensures Clear(p, i).Valid(n)
    ensures Clear(p, i).Entries() == p.Entries() - {p.keys[i]}
  {
    ClearValid(p, n, i);
    var q := Clear(p, i);
    forall x | x in KeySet(q.keys) ensures q.Entries()[x] == p.Entries()[x] {
      FirstOf(p.keys, First(q.keys, x));
    }
  }

  lemma BlankEntries(c: Page, n: nat)
    requires c.Blank(n)
    ensures c.Valid(n) && c.Entries() == map[] && KeySet(c.keys) == {}
  {
    DistinctSpread(c.keys);
  }

  /** A valid page is full exactly when it holds n keys. */
  lemma FullSize(p: Page, n: nat)
    requires p.Valid(n)
    ensures p.Full() <==> |KeySet(p.keys)| == n
    ensures p.Entries().Keys == KeySet(p.keys)
  {
    KeySetSize(p.keys);
  }

  lemma EntryCount(p: Page, n: nat)
    requires p.Valid(n)
    ensures p.Full() <==> |p.Entries()| == n
  {
    FullSize(p, n);
    assert |p.Entries()| == |p.Entries().Keys|;
  }

  // ----- splitting -----

  /** Key k of the full page p0 has been moved once slots below i are done. */
  ghost predicate Moved(p0: Page, pivot: Key, i: nat, k: Key) {
    k == pivot || (k > pivot && First(p0.keys, k) < i)
  }

  /** Pages p and c after the slots below i of p0 have been handled. */
  ghost predicate Moving(p0: Page, n: nat, pivot: Key, p: Page, c: Page, i: nat) {
    && p0.Valid(n) && p0.Full() && pivot in p0.keys
    && p.Valid(n) && c.Valid(n) && i <= n && n > 0
    && p.vals == p0.vals
    && (forall j :: 0 <= j < n ==> p.keys[j] == if Moved(p0, pivot, i, p0.keys[j]) then INVALID else p0.keys[j])
    && c.keys[0] == pivot
    && c.Entries() == map k | k in p0.Entries() && Moved(p0, pivot, i, k) :: p0.Entries()[k]
  }

  /** The keys a split sends to the right half. */
  ghost function Upper(p0: Page, pivot: Key): set<Key> {
    set k | k in p0.keys && k >= pivot
  }

  ghost function Lower(p0: Page, pivot: Key): set<Key> {
    set k | k in p0.keys && k < pivot
  }

  /** With the pivot at the middle rank, the upper half holds n - n/2 keys. */
  lemma UpperSize(p0: Page, n: nat)
    requires p0.Valid(n) && p0.Full() && n > 0
    ensures |Upper(p0, p0.keys[MedianSlot(p0.keys)])| == n - n / 2
    ensures |Lower(p0, p0.keys[MedianSlot(p0.keys)])| == n / 2
  {
    var pivot := p0.keys[MedianSlot(p0.keys)];
    RankCount(p0.keys, n / 2);
    KeySetSize(p0.keys);
    var below := set k | k in p0.keys && k < pivot;
    assert below == Lower(p0, pivot);
    assert Upper(p0, pivot) == KeySet(p0.keys) - below;
    SubsetSize(below, KeySet(p0.keys));
  }

  /** The candidate always has a free slot for the next key to be moved. */
  lemma MovingRoom(p0: Page, n: nat, pivot: Key, p: Page, c: Page, i: nat)
    requires Moving(p0, n, pivot, p, c, i) && i < n
    requires |Upper(p0, pivot)| <= n
    requires p.keys[i] != INVALID && p.keys[i] > pivot
    ensures !c.Full() && p.keys[i] !in c.keys && p.keys[i] == p0.keys[i]
  {
    var k := p.keys[i];
    assert k == p0.keys[i];
    FirstOf(p0.keys, i);
    FullSize(c, n);
    assert !Moved(p0, pivot, i, k);
    assert k !in c.Entries();
    assert KeySet(c.keys) + {k} <= Upper(p0, pivot) by {
      forall x | x in KeySet(c.keys) ensures x in Upper(p0, pivot) {
        assert x in c.Entries();
      }
    }
    SubsetSize(KeySet(c.keys) + {k}, Upper(p0, pivot));
  }

  lemma MovingMove(p0: Page, n: nat, pivot: Key, p: Page, c: Page, i: nat)
    requires Moving(p0, n, pivot, p, c, i) && i < n
    requires |Upper(p0, pivot)| <= n
    requires p.keys[i] != INVALID && p.keys[i] > pivot
    ensures Moving(p0, n, pivot, Clear(p, i), Put(c, p.keys[i], p.vals[i]), i + 1)
  {
    MovingRoom(p0, n, pivot, p, c, i);
    MovedNext(p0, n, pivot, i);
    MovingSource(p0, n, pivot, p, c, i);
    MovingTarget(p0, n, pivot, p, c, i);
  }

  lemma MovingSource(p0: Page, n: nat, pivot: Key, p: Page, c: Page, i: nat)
    requires Moving(p0, n, pivot, p, c, i) && i < n
    requires p.keys[i] != INVALID && p.keys[i] > pivot
    ensures Clear(p, i).Valid(n)
    ensures forall j :: 0 <= j < n ==>
      Clear(p, i).keys[j] == if Moved(p0, pivot, i + 1, p0.keys[j]) then INVALID else p0.keys[j]
  {
    ClearEntries(p, n, i);
    MovedNext(p0, n, pivot, i);
    forall j | 0 <= j < n
      ensures Clear(p, i).keys[j] == if Moved(p0, pivot, i + 1, p0.keys[j]) then INVALID else p0.keys[j]
    {
      assert p0.keys[j] in p0.keys;
    }
  }

  lemma MovingTarget(p0: Page, n: nat, pivot: Key, p: Page, c: Page, i: nat)
    requires Moving(p0, n, pivot, p, c, i) && i < n
    requires p.keys[i] == p0.keys[i] != INVALID && p.keys[i] > pivot && p.keys[i] !in c.keys && !c.Full()
    ensures Put(c, p.keys[i], p.vals[i]).Valid(n)
    ensures Put(c, p.keys[i], p.vals[i]).keys[0] == pivot
    ensures Put(c, p.keys[i], p.vals[i]).Entries()
         == map k | k in p0.Entries() && Moved(p0, pivot, i + 1, k) :: p0.Entries()[k]
  {
    PutEntries(c, n, p.keys[i], p.vals[i]);
    MovedNext(p0, n, pivot, i);
    FirstOf(p0.keys, i);
  }

  lemma MovedNext(p0: Page, n: nat, pivot: Key, i: nat)
    requires p0.Valid(n) && p0.Full() && i < n
    ensures forall x :: x in p0.keys ==>
      (Moved(p0, pivot, i + 1, x) <==> Moved(p0, pivot, i, x) || (x == p0.keys[i] && x > pivot))
  {
    FirstOf(p0.keys, i);
  }

  lemma MovingSkip(p0: Page, n: nat, pivot: Key, p: Page, c: Page, i: nat)
    requires Moving(p0, n, pivot, p, c, i) && i < n
    requires !(p.keys[i] != INVALID && p.keys[i] > pivot)
    ensures Moving(p0, n, pivot, p, c, i + 1)
  {
    MovedNext(p0, n, pivot, i);
    assert p0.keys[i] in p0.keys;
    assert forall x :: x in p0.keys ==> (Moved(p0, pivot, i + 1, x) <==> Moved(p0, pivot, i, x));
    assert forall j :: 0 <= j < n ==> p0.keys[j] in p0.keys;
  }

  lemma {:induction false} MoveAboveOk(p0: Page, n: nat, pivot: Key, p: Page, c: Page, i: nat)
    requires Moving(p0, n, pivot, p, c, i)
    requires |Upper(p0, pivot)| <= n
    ensures Moving(p0, n, pivot, MoveAbove(p, c, pivot, i).0, MoveAbove(p, c, pivot, i).1, n)
    decreases n - i
  {
    if i == n {
    } else {
      var (p', c') := MoveStep(p, c, pivot, i);
      assert Moving(p0, n, pivot, p', c', i + 1) by {
        if p.keys[i] != INVALID && p.keys[i] > pivot {
          MovingMove(p0, n, pivot, p, c, i);
        } else {
          MovingSkip(p0, n, pivot, p, c, i);
        }
      }
      MoveAboveOk(p0, n, pivot, p', c', i + 1);
    }
  }

  lemma FirstPut(c: Page, n: nat, k: Key, v: Value)
    requires c.Blank(n) && n > 0 && k != INVALID
    ensures Put(c, k, v).Valid(n) && Put(c, k, v).keys[0] == k
    ensures Put(c, k, v).Entries() == map[k := v]
  {
    BlankEntries(c, n);
    assert First(c.keys, INVALID) == 0;
    PutSlots(c, n, k, v);
    PutEntries(c, n, k, v);
  }

  lemma PivotEntries(p: Page, n: nat, m: nat)
    requires p.Valid(n) && p.Full() && m < n
    ensures (map k | k in p.Entries() && Moved(p, p.keys[m], 0, k) :: p.Entries()[k])
         == map[p.keys[m] := p.vals[m]]
  {
    FirstOf(p.keys, m);
  }

  lemma MovingStart(p0: Page, n: nat, c0: Page)
    requires p0.Valid(n) && p0.Full() && n > 0 && c0.Blank(n)
    ensures var (p1, c1) := PivotMoved(p0, c0);
      Moving(p0, n, p0.keys[MedianSlot(p0.keys)], p1, c1, 0)
  {
    var m := MedianSlot(p0.keys);
    ClearEntries(p0, n, m);
    FirstPut(c0, n, p0.keys[m], p0.vals[m]);
    PivotEntries(p0, n, m);
    PivotOnly(p0, n, m);
  }

  lemma PivotOnly(p: Page, n: nat, m: nat)
    requires p.Valid(n) && m < n && p.keys[m] != INVALID
    ensures forall j :: 0 <= j < n && p.keys[j] == p.keys[m] ==> j == m
  {
    DistinctSpread(p.keys);
  }

  lemma {:induction false} MoveAboveMeta(p: Page, c: Page, pivot: Key, i: nat)
    requires |p.keys| == |p.vals| && |c.keys| == |c.vals| && i <= |p.keys|
    ensures var (l, r) := MoveAbove(p, c, pivot, i);
      && l.incar == p.incar && l.next == p.next && r.incar == c.incar && r.next == c.next
    decreases |p.keys| - i
  {
    if i < |p.keys| {
      var (p', c') := MoveStep(p, c, pivot, i);
      MoveAboveMeta(p', c', pivot, i + 1);
    }
  }

  ghost function Below(m: map<Key, Value>, pivot: Key): map<Key, Value> {
    map x | x in m && x < pivot :: m[x]
  }

  ghost function From(m: map<Key, Value>, pivot: Key): map<Key, Value> {
    map x | x in m && x >= pivot :: m[x]
  }

  /** l and r are p cut at its median key, p's slots kept in l. */
  ghost predicate Cut(p: Page, n: nat, l: Page, r: Page) {
    && p.Valid(n) && n > 0 && l.Valid(n) && r.Valid(n)
    && r.keys[0] == p.keys[MedianSlot(p.keys)]
    && l.Entries() == Below(p.Entries(), r.keys[0])
    && r.Entries() == From(p.Entries(), r.keys[0])
    && (forall j :: 0 <= j < n ==> l.keys[j] == if p.keys[j] >= r.keys[0] then INVALID else p.keys[j])
    && l.vals == p.vals
  }

  /** Before the new pair is stored: the page is cut at its median key and the
      left half keeps its slots. */
  lemma HalvesOk(p: Page, n: nat, c: Page)
    requires p.Valid(n) && p.Full() && c.Blank(n) && n > 0
    ensures Cut(p, n, Halves(p, c).0, Halves(p, c).1)
  {
    var m := MedianSlot(p.keys);
    var pivot := p.keys[m];
    var (p1, c1) := PivotMoved(p, c);
    MovingStart(p, n, c);
    UpperSize(p, n);
    MoveAboveOk(p, n, pivot, p1, c1, 0);
    var (l, r) := Halves(p, c);
    assert forall k :: k in p.keys ==> (Moved(p, pivot, n, k) <==> k >= pivot);
    assert forall j :: 0 <= j < n ==> p.keys[j] in p.keys;
    assert r.Entries() == From(p.Entries(), pivot);
    LeftEntries(p, n, pivot, l);
  }

  lemma LeftEntries(p: Page, n: nat, pivot: Key, l: Page)
    requires p.Valid(n) && l.Valid(n) && l.vals == p.vals
    requires forall j :: 0 <= j < n ==> l.keys[j] == if p.keys[j] >= pivot then INVALID else p.keys[j]
    ensures l.Entries() == Below(p.Entries(), pivot)
  {
    forall x | x != INVALID ensures x in l.keys <==> x in p.keys && x < pivot {
      if x in p.keys && x < pivot {
        var j :| 0 <= j < n && p.keys[j] == x;
        assert l.keys[j] == x;
      }
    }
    forall x | x in KeySet(l.keys) ensures l.Entries()[x] == p.Entries()[x] {
      FirstOf(p.keys, First(l.keys, x));
    }
  }

  lemma HalfCounts(p: Page, n: nat, pivot: Key)
    requires p.Valid(n) && p.Full()
    ensures |Below(p.Entries(), pivot)| == |Lower(p, pivot)|
    ensures |From(p.Entries(), pivot)| == |Upper(p, pivot)|
  {
    var e := p.Entries();
    assert Below(e, pivot).Keys == Lower(p, pivot);
    assert From(e, pivot).Keys == Upper(p, pivot);
    assert |Below(e, pivot)| == |Below(e, pivot).Keys| && |From(e, pivot)| == |From(e, pivot).Keys|;
  }

  lemma CutSizes(p: Page, n: nat, l: Page, r: Page)
    requires p.Full() && Cut(p, n, l, r)
    ensures |l.Entries()| == n / 2 && |r.Entries()| == n - n / 2
    ensures !l.Full() && (n >= 2 ==> !r.Full())
  {
    HalfCounts(p, n, r.keys[0]);
    UpperSize(p, n);
    EntryCount(l, n);
    EntryCount(r, n);
  }

  lemma CutMap(e: map<Key, Value>, pivot: Key, k: Key, v: Value)
    requires k !in e && k != pivot
    ensures k > pivot ==>
      && From(e[k := v], pivot) == From(e, pivot)[k := v] && k !in From(e, pivot)
      && Below(e[k := v], pivot) == Below(e, pivot)
    ensures k < pivot ==>
      && From(e[k := v], pivot) == From(e, pivot)
      && Below(e[k := v], pivot) == Below(e, pivot)[k := v] && k !in Below(e, pivot)
  {}

  /** The pages p, r of a split hold exactly the pairs of e, cut at the first
      key of r. */
  ghost predicate Partition(e: map<Key, Value>, l: Page, r: Page, n: nat) {
    && l.Valid(n) && r.Valid(n) && n > 0
    && l.Entries() == Below(e, r.keys[0])
    && r.Entries() == From(e, r.keys[0])
    && r.keys[0] in e
  }

  /** The pair added to the half it belongs to. */
  lemma CutAdd(p: Page, n: nat, l: Page, r: Page, k: Key, v: Value)
    requires p.Full() && Cut(p, n, l, r) && !l.Full() && !r.Full()
    requires k !in p.keys && k != INVALID
    ensures k > r.keys[0] ==>
      && Partition(p.Entries()[k := v], l, Put(r, k, v), n)
      && Put(r, k, v).Entries() == r.Entries()[k := v] && k !in r.Entries()
    ensures k <= r.keys[0] ==>
      && Partition(p.Entries()[k := v], Put(l, k, v), r, n)
      && Put(l, k, v).Entries() == l.Entries()[k := v] && k !in l.Entries()
  {
    FullSize(p, n);
    FullSize(l, n);
    FullSize(r, n);
    CutMap(p.Entries(), r.keys[0], k, v);
    if k > r.keys[0] {
      CutAddRight(r, n, k, v);
    } else {
      PutEntries(l, n, k, v);
    }
  }

  lemma CutAddRight(r: Page, n: nat, k: Key, v: Value)
    requires r.Valid(n) && n > 0 && !r.Full() && k !in r.Entries() && k != INVALID && r.keys[0] != INVALID
    ensures Put(r, k, v).Valid(n) && Put(r, k, v).keys[0] == r.keys[0]
    ensures Put(r, k, v).Entries() == r.Entries()[k := v]
  {
    FullSize(r, n);
    PutSlots(r, n, k, v);
    PutEntries(r, n, k, v);
  }

  /** A split loses nothing: the two pages hold the old pairs and the new one,
      cut at the right page's first key, which is its smallest; and neither
      page is less than half full. */
  lemma SplitPartition(p: Page, n: nat, cand: Leaf, c: Page, k: Key, v: Value)
    requires p.Valid(n) && p.Full() && c.Blank(n) && n >= 2
    requires k !in p.keys && k != INVALID
    ensures var r := LeafInsert(p, cand, c, k, v);
      && r.split && Partition(p.Entries()[k := v], r.left, r.right, n)
      && |r.left.Entries()| >= n / 2 && |r.right.Entries()| >= n - n / 2
      && |r.left.Entries()| + |r.right.Entries()| == n + 1
  {
    HalvesOk(p, n, c);
    var (l, r) := Halves(p, c);
    CutSizes(p, n, l, r);
    CutAdd(p, n, l, r, k, v);
    if k > r.keys[0] {
      Relinked(p.Entries()[k := v], l, Put(r, k, v), n, cand, p.next);
    } else {
      Relinked(p.Entries()[k := v], Put(l, k, v), r, n, cand, p.next);
    }
  }

  lemma SplitSizes(p: Page, n: nat, cand: Leaf, c: Page, k: Key, v: Value)
    requires p.Valid(n) && p.Full() && c.Blank(n) && n >= 2
    requires k !in p.keys && k != INVALID
    ensures var r := LeafInsert(p, cand, c, k, v);
      && r.left.Valid(n) && r.right.Valid(n)
      && |r.left.Entries()| >= n / 2 && |r.right.Entries()| >= n - n / 2
  {
    SplitPartition(p, n, cand, c, k, v);
  }

  lemma Relinked(e: map<Key, Value>, l: Page, r: Page, n: nat, a: Leaf?, b: Leaf?)
    requires Partition(e, l, r, n)
    ensures Partition(e, l.(next := a), r.(next := b), n)
    ensures l.(next := a).Entries() == l.Entries() && r.(next := b).Entries() == r.Entries()
  {}

  /** Splitting counts up the incarnation and links the new leaf in between. */
  lemma SplitMeta(p: Page, n: nat, cand: Leaf, c: Page, k: Key, v: Value)
    requires p.Valid(n) && p.Full() && c.Blank(n) && n >= 2
    ensures var r := LeafInsert(p, cand, c, k, v);
      && r.left.incar == (p.incar + 1) % INCAR_LIMIT && r.right.incar == c.incar
      && r.left.next == cand && r.right.next == p.next
  {
    var (p1, c1) := PivotMoved(p, c);
    MoveAboveMeta(p1, c1, p.keys[MedianSlot(p.keys)], 0);
  }

  /** Every slot of q that holds a key other than k already held that key and
      value in p. */
  ghost predicate SlotsKept(p: Page, q: Page, n: nat, k: Key) {
    && |p.keys| == |p.vals| == n && |q.keys| == |q.vals| == n
    && forall j :: 0 <= j < n && q.keys[j] != INVALID && q.keys[j] != k ==>
         q.keys[j] == p.keys[j] && q.vals[j] == p.vals[j]
  }

  /** An insert never moves a key between the slots of the leaf it stays in. */
  lemma InsertKeepsSlots(p: Page, n: nat, cand: Leaf, c: Page, k: Key, v: Value)
    requires p.Valid(n) && c.Blank(n) && n >= 2
    requires k !in p.keys && k != INVALID
    ensures SlotsKept(p, LeafInsert(p, cand, c, k, v).left, n, k)
  {
    if !p.Full() {
      PutSlots(p, n, k, v);
    } else {
      HalvesOk(p, n, c);
      var (l, r) := Halves(p, c);
      CutSizes(p, n, l, r);
      CutKeepsSlots(p, n, l, r, k, v);
    }
  }

  /** Both halves have room for a key the page did not hold. */
  lemma HalvesRoom(p: Page, n: nat, c: Page, k: Key)
    requires p.Valid(n) && p.Full() && c.Blank(n) && n >= 2
    requires k !in p.keys && k != INVALID
    ensures var (l, r) := Halves(p, c);
      && l.Valid(n) && r.Valid(n) && !l.Full() && !r.Full() && k !in l.keys && k !in r.keys
  {
    HalvesOk(p, n, c);
    var (l, r) := Halves(p, c);
    CutSizes(p, n, l, r);
    FullSize(p, n);
    FullSize(l, n);
    FullSize(r, n);
    assert k !in p.Entries() && k !in l.Entries() && k !in r.Entries();
  }

  lemma CutKeepsSlots(p: Page, n: nat, l: Page, r: Page, k: Key, v: Value)
    requires Cut(p, n, l, r) && !l.Full()
    ensures SlotsKept(p, l, n, k) && SlotsKept(p, Put(l, k, v), n, k)
  {
    PutSlots(l, n, k, v);
  }

  /** Whichever sort ordered the pairs, the middle one names a slot that holds
      the key of middle rank; among distinct keys there is only one such slot. */
  lemma MedianPair(keys: seq<Key>, temp: seq<(Key, nat)>, p: seq<(Key, nat)>)
    requires |keys| > 0
    requires |temp| == |keys| && forall j :: 0 <= j < |keys| ==> temp[j] == (keys[j], j)
    requires multiset(p) == multiset(temp) && Sorted(Firsts(p))
    ensures |p| == |keys| && p[|keys| / 2].1 < |keys|
    ensures keys[p[|keys| / 2].1] == Sort(keys)[|keys| / 2]
    ensures Distinct(keys) && INVALID !in keys ==> p[|keys| / 2].1 == MedianSlot(keys)
  {
    assert |p| == |multiset(p)| == |multiset(temp)| == |temp|;
    FirstsPermute(p, temp);
    assert Firsts(temp) == keys;
    SortOk(keys);
    SortUnique(Firsts(p), Sort(keys));
    var m := |keys| / 2;
    assert p[m] in multiset(p) && p[m] in temp;
    assert Firsts(p)[m] == p[m].0;
    if Distinct(keys) && INVALID !in keys {
      FirstOf(keys, p[m].1);
    }
  }

  // ---------- the leaf itself ----------

  class Leaf {
    // Where the leaf lives in the registered memory.
    const addr: nat
    const keys: array<Key>
    const vals: array<Value>
    var incar: nat
    var next: Leaf?

    constructor (n: nat, addr: nat)
      ensures fresh(keys) && fresh(vals) && Shaped(n)
      ensures this.addr == addr && View().Blank(n) && incar == 0 && next == null
    {
      this.addr := addr;
      keys := new Key[n](i => INVALID);
      vals := new Value[n];
      incar := 0;
      next := null;
    }

    ghost function Footprint(): set<object> {
      {this, keys, vals}
    }

    ghost predicate Shaped(n: nat) {
      keys.Length == n && vals.Length == n
    }

    ghost function View(): Page
      reads Footprint()
    {
      Page(keys[..], vals[..], incar, next)
    }

    method AddKey(key: Key) returns (idx: Option<nat>)
      modifies keys
      ensures idx.None? ==> INVALID !in old(keys[..]) && keys[..] == old(keys[..])
      ensures idx.Some? ==>
        && idx.value == First(old(keys[..]), INVALID) < keys.Length
        && keys[..] == old(keys[..])[idx.value := key]
    {
      var i := 0;
      while i < keys.Length
        invariant 0 <= i <= keys.Length
        invariant keys[..] == old(keys[..])
        invariant forall j :: 0 <= j < i ==> keys[j] != INVALID
      {
        if keys[i] == INVALID {
          assert First(keys[..], INVALID) == i;
          keys[i] := key;
          return Some(i);
        }
        i := i + 1;
      }
      return None;
    }

    method SearchKey(key: Key) returns (idx: Option<nat>)
      ensures idx == Search(View(), key)
    {
      var i := 0;
      while i < keys.Length
        invariant 0 <= i <= keys.Length
        invariant forall j :: 0 <= j < i ==> keys[j] != key
      {
        if keys[i] == key {
          assert First(keys[..], key) == i;
          return Some(i);
        }
        i := i + 1;
      }
      assert key !in keys[..];
      return None;
    }

    method FindMedianKey() returns (idx: nat)
      requires keys.Length > 0
      ensures idx < keys.Length && keys[idx] == Sort(keys[..])[keys.Length / 2]
      ensures Distinct(keys[..]) && INVALID !in keys[..] ==> idx == MedianSlot(keys[..])
    {
      var temp: seq<(Key, nat)> := [];
      var i := 0;
      while i < keys.Length
        invariant 0 <= i <= keys.Length && |temp| == i
        invariant forall j :: 0 <= j < i ==> temp[j] == (keys[j], j)
      {
        temp := temp + [(keys[i], i)];
        i := i + 1;
      }
      var sorted := SortPairs(temp);
      SortPairsOk(temp);
      SortOk(Firsts(temp));
      MedianPair(keys[..], temp, sorted);
      idx := sorted[|sorted| / 2].1;
    }

    /** Steps 2 and 3 of a split: the pivot, then every key above it, leave
        for the candidate.  p0 is the page before its incarnation was counted
        up. */
    method MoveUpperHalf(n: nat, ghost p0: Page, candidate: Leaf) returns (pivot: Key)
      requires Shaped(n) && p0.Valid(n) && p0.Full() && n >= 2
      requires View() == p0.(incar := (p0.incar + 1) % INCAR_LIMIT)
      requires candidate.Shaped(n) && candidate.View().Blank(n)
      requires Footprint() !! candidate.Footprint()
      modifies keys, candidate.Footprint()
      ensures pivot == p0.keys[MedianSlot(p0.keys)]
      ensures (View(), candidate.View()) == Halves(p0, old(candidate.View()))
      decreases 2
    {
      ghost var c0 := candidate.View();
      var m := FindMedianKey();
      pivot := keys[m];
      MovingStart(p0, n, c0);
      UpperSize(p0, n);
      BlankEntries(c0, n);
      var v := vals[m];
      var _ := candidate.RawInsert(n, pivot, v, null);
      keys[m] := INVALID;
      assert (View(), candidate.View()) == PivotMoved(p0, c0);
      var i := 0;
      while i < n
        invariant 0 <= i <= n && Shaped(n) && candidate.Shaped(n)
        invariant Moving(p0, n, pivot, View(), candidate.View(), i)
        invariant MoveAbove(View(), candidate.View(), pivot, i) == Halves(p0, c0)
      {
        MoveOne(n, p0, pivot, i, candidate);
        i := i + 1;
      }
    }

    method MoveOne(n: nat, ghost p0: Page, pivot: Key, i: nat, candidate: Leaf)
      requires Shaped(n) && candidate.Shaped(n) && Footprint() !! candidate.Footprint() && i < n && n >= 2
      requires Moving(p0, n, pivot, View(), candidate.View(), i)
      requires |Upper(p0, pivot)| <= n
      modifies keys, candidate.Footprint()
      ensures (View(), candidate.View()) == MoveStep(old(View()), old(candidate.View()), pivot, i)
      ensures Moving(p0, n, pivot, View(), candidate.View(), i + 1)
      decreases 1
    {
      ghost var p, c := View(), candidate.View();
      var k := keys[i];
      if k != INVALID && k > pivot {
        MovingRoom(p0, n, pivot, p, c, i);
        MovingMove(p0, n, pivot, p, c, i);
        var v := vals[i];
        var _ := candidate.RawInsert(n, k, v, null);
        keys[i] := INVALID;
      } else {
        MovingSkip(p0, n, pivot, p, c, i);
      }
    }

    /** The core insert.  A full leaf splits into the candidate, which the
        caller owns exclusively; a leaf that cannot be full needs none. */
    method RawInsert(n: nat, key: Key, v: Value, candidate: Leaf?) returns (split: bool)
      requires Shaped(n) && View().Valid(n) && n >= 2
      requires key !in keys[..] && key != INVALID
      requires candidate == null ==> !View().Full()
      requires candidate != null ==>
        candidate.Shaped(n) && candidate.View().Blank(n) && Footprint() !! candidate.Footprint()
      modifies this, keys, vals
      modifies if candidate == null then {} else candidate.Footprint()
      ensures split == old(View().Full())
      ensures !split ==> View() == Put(old(View()), key, v)
      ensures !split && candidate != null ==> candidate.View() == old(candidate.View())
      ensures split && candidate != null ==>
        LeafResult(View(), candidate.View(), true)
        == LeafInsert(old(View()), candidate, old(candidate.View()), key, v)
      decreases if candidate == null then 0 else 4
    {
      ghost var p := View();
      var idx := AddKey(key);
      if idx.Some? {
        vals[idx.value] := v;
        split := false;
        assert View() == Put(p, key, v);
      } else {
        SplitInsert(n, key, v, candidate);
        split := true;
      }
    }

    /** A full leaf gives its upper half to the candidate, stores the new pair
        on the side it belongs to, and links the candidate behind itself. */
    method SplitInsert(n: nat, key: Key, v: Value, candidate: Leaf)
      requires Shaped(n) && View().Valid(n) && View().Full() && n >= 2
      requires key !in keys[..] && key != INVALID
      requires candidate.Shaped(n) && candidate.View().Blank(n) && Footprint() !! candidate.Footprint()
      modifies Footprint(), candidate.Footprint()
      ensures LeafResult(View(), candidate.View(), true)
           == LeafInsert(old(View()), candidate, old(candidate.View()), key, v)
      decreases 3
    {
      ghost var p, c := View(), candidate.View();
      incar := (incar + 1) % INCAR_LIMIT;
      var pivot := MoveUpperHalf(n, p, candidate);
      HalvesRoom(p, n, c, key);
      if key > pivot {
        var _ := candidate.RawInsert(n, key, v, null);
      } else {
        var _ := this.RawInsert(n, key, v, null);
      }
      candidate.next := this.next;
      this.next := candidate;
    }

    method Get(key: Key) returns (v: Option<Value>)
      requires keys.Length == vals.Length
      ensures v == PageGet(View(), key)
    {
      var idx := SearchKey(key);
      if idx.Some? {
        return Some(vals[idx.value]);
      }
      return None;
    }
  }
}
