/** Operations in memory for LockElision: get and insert on a tree with one inner
    node, cell by cell, leaf splits and new separators included.  The inner node
    comes with the first separator; before that the root is a leaf. */
module OneNode {
  import opened Keys
  import opened XNode
  import opened BTree
  import opened FlatTree
  import opened TTIter
  import opened LockElision
  import opened Programs

  // ---------- cells ----------

  /** The number of separators, the separators, the numbers of the child leaves,
      and the slots of the leaves. */
  datatype Place = Count | SepAt(i: nat) | ChildAt(i: nat) | KeyAt(l: nat, j: nat) | ValueAt(l: nat, j: nat)

  predicate Proper(n: Pos, x: Place) {
    x.KeyAt? || x.ValueAt? ==> x.j < n
  }

  function Cell(n: Pos, x: Place): nat {
    match x
    case Count => 0
    case SepAt(i) => 4 * i + 1
    case ChildAt(i) => 4 * i + 2
    case KeyAt(l, j) => 4 * Encode(n, l, j) + 3
    case ValueAt(l, j) => 4 * Encode(n, l, j) + 4
  }

  /** Every place has a cell of its own. */
  lemma OwnCell(n: Pos, x: Place, y: Place)
    requires Proper(n, x) && Proper(n, y) && Cell(n, x) == Cell(n, y)
    ensures x == y
  {
    if x.KeyAt? || x.ValueAt? {
      LogicRoundTrip(n, x.l, x.j);
    }
    if y.KeyAt? || y.ValueAt? {
      LogicRoundTrip(n, y.l, y.j);
    }
  }

  function At(m: Mem, n: Pos, x: Place): int {
    Get(m, Cell(n, x))
  }

  function Set(m: Mem, n: Pos, x: Place, v: int): Mem {
    m[Cell(n, x) := v]
  }

  lemma SetAt(m: Mem, n: Pos, x: Place, v: int)
    requires Proper(n, x)
    ensures forall y {:trigger At(Set(m, n, x, v), n, y)} :: Proper(n, y) ==>
      At(Set(m, n, x, v), n, y) == if y == x then v else At(m, n, y)
  {
    forall y | Proper(n, y) ensures At(Set(m, n, x, v), n, y) == if y == x then v else At(m, n, y) {
      if Cell(n, y) == Cell(n, x) {
        OwnCell(n, x, y);
      }
    }
  }

  // ---------- leaves in memory ----------

  /** Leaf l has the keys and values of p. */
  ghost predicate Shows(m: Mem, n: Pos, l: nat, p: Page) {
    && |p.keys| == |p.vals| == n
    && (forall j {:trigger At(m, n, KeyAt(l, j))} :: 0 <= j < n ==> At(m, n, KeyAt(l, j)) == p.keys[j])
    && (forall j {:trigger At(m, n, ValueAt(l, j))} :: 0 <= j < n ==> At(m, n, ValueAt(l, j)) == p.vals[j])
  }

  predicate SlotIn(x: Place, a: nat, b: nat) {
    (x.KeyAt? || x.ValueAt?) && (x.l == a || x.l == b)
  }

  /** Nothing but leaves a and b differs. */
  ghost predicate Only(m: Mem, m': Mem, n: Pos, a: nat, b: nat) {
    forall x {:trigger At(m', n, x)} :: Proper(n, x) && !SlotIn(x, a, b) ==> At(m', n, x) == At(m, n, x)
  }

  lemma OnlyOthers(m: Mem, m': Mem, n: Pos, a: nat, b: nat, l: nat, p: Page)
    requires Only(m, m', n, a, b) && Shows(m, n, l, p) && l != a && l != b
    ensures Shows(m', n, l, p)
  {}

  // ---------- the programs ----------

  function Scan(n: Pos, l: nat, key: int, i: nat, cont: nat -> Prog): Prog
    decreases n - i
  {
    if i >= n then cont(n)
    else LoadCell(Cell(n, KeyAt(l, i)), (x: int) => if x == key then cont(i) else Scan(n, l, key, i + 1, cont))
  }

  /** add_key and the value: store the pair in the first empty slot. */
  function AddKey(n: Pos, l: nat, k: int, v: int, full: Prog, rest: Prog): Prog {
    Scan(n, l, INVALID, 0, (i: nat) =>
      if i < n then StoreCell(Cell(n, KeyAt(l, i)), k, StoreCell(Cell(n, ValueAt(l, i)), v, rest)) else full)
  }

  /** The loop of the split, from slot i on. */
  function MoveFrom(n: Pos, l: nat, c: nat, pivot: int, i: nat, rest: Prog): Prog
    decreases n - i
  {
    if i >= n then rest
    else
      LoadCell(Cell(n, KeyAt(l, i)), (x: int) =>
        if x != INVALID && x > pivot then
          LoadCell(Cell(n, ValueAt(l, i)), (y: int) =>
            var clear := StoreCell(Cell(n, KeyAt(l, i)), INVALID, MoveFrom(n, l, c, pivot, i + 1, rest));
            AddKey(n, c, x, y, clear, clear))
        else MoveFrom(n, l, c, pivot, i + 1, rest))
  }

  lemma ScanOk(n: Pos, l: nat, key: Key, i: nat, cont: nat -> Prog, m: Mem, p: Page)
    requires Shows(m, n, l, p) && i <= n && forall j :: 0 <= j < i ==> p.keys[j] != key
    ensures Reaches(Spot(Scan(n, l, key, i, cont), m), Spot(cont(First(p.keys, key)), m))
    decreases n - i
  {
    var end := Spot(cont(First(p.keys, key)), m);
    if i == n {
      ReachesItself(end);
    } else {
      assert At(m, n, KeyAt(l, i)) == p.keys[i];
      if p.keys[i] == key {
        ReachesItself(end);
      } else {
        ScanOk(n, l, key, i + 1, cont, m, p);
      }
      ReachesNext(Spot(Scan(n, l, key, i, cont), m), end);
    }
  }

  lemma AddOk(n: Pos, l: nat, k: Key, v: Value, full: Prog, rest: Prog, m: Mem, p: Page) returns (m': Mem)
    requires Shows(m, n, l, p) && !p.Full()
    ensures Reaches(Spot(AddKey(n, l, k, v, full, rest), m), Spot(rest, m'))
    ensures Shows(m', n, l, Put(p, k, v)) && Only(m, m', n, l, l)
  {
    var i := First(p.keys, INVALID);
    var cont := (i: nat) =>
      if i < n then StoreCell(Cell(n, KeyAt(l, i)), k, StoreCell(Cell(n, ValueAt(l, i)), v, rest)) else full;
    ScanOk(n, l, INVALID, 0, cont, m, p);
    var m1 := Set(m, n, KeyAt(l, i), k);
    m' := Set(m1, n, ValueAt(l, i), v);
    SetAt(m, n, KeyAt(l, i), k);
    SetAt(m1, n, ValueAt(l, i), v);
    ReachesItself(Spot(rest, m'));
    ReachesNext(Spot(StoreCell(Cell(n, ValueAt(l, i)), v, rest), m1), Spot(rest, m'));
    ReachesNext(Spot(cont(i), m), Spot(rest, m'));
    ReachesOn(Spot(Scan(n, l, INVALID, 0, cont), m), Spot(cont(i), m), Spot(rest, m'));
    assert AddKey(n, l, k, v, full, rest) == Scan(n, l, INVALID, 0, cont);
  }

  lemma AddFull(n: Pos, l: nat, k: Key, v: Value, full: Prog, rest: Prog, m: Mem, p: Page)
    requires Shows(m, n, l, p) && p.Full()
    ensures Reaches(Spot(AddKey(n, l, k, v, full, rest), m), Spot(full, m))
  {
    var cont := (i: nat) =>
      if i < n then StoreCell(Cell(n, KeyAt(l, i)), k, StoreCell(Cell(n, ValueAt(l, i)), v, rest)) else full;
    ScanOk(n, l, INVALID, 0, cont, m, p);
    assert First(p.keys, INVALID) == n;
    assert AddKey(n, l, k, v, full, rest) == Scan(n, l, INVALID, 0, cont);
  }

  /** Full or not, the page becomes what Put makes of it. */
  lemma AddAny(n: Pos, l: nat, k: Key, v: Value, rest: Prog, m: Mem, p: Page) returns (m': Mem)
    requires Shows(m, n, l, p)
    ensures Reaches(Spot(AddKey(n, l, k, v, rest, rest), m), Spot(rest, m'))
    ensures Shows(m', n, l, Put(p, k, v)) && Only(m, m', n, l, l)
  {
    if p.Full() {
      AddFull(n, l, k, v, rest, rest, m, p);
      m' := m;
    } else {
      m' := AddOk(n, l, k, v, rest, rest, m, p);
    }
  }

  lemma {:induction false} MoveOk(n: Pos, l: nat, c: nat, pivot: Key, i: nat, rest: Prog, m: Mem, p: Page, q: Page)
    returns (m': Mem)
    requires Shows(m, n, l, p) && Shows(m, n, c, q) && l != c && i <= n
    ensures Reaches(Spot(MoveFrom(n, l, c, pivot, i, rest), m), Spot(rest, m'))
    ensures var (a, b) := MoveAbove(p, q, pivot, i); Shows(m', n, l, a) && Shows(m', n, c, b)
    ensures Only(m, m', n, l, c)
    decreases n - i
  {
    if i == n {
      m' := m;
      ReachesItself(Spot(rest, m));
    } else {
      var start := Spot(MoveFrom(n, l, c, pivot, i, rest), m);
      assert At(m, n, KeyAt(l, i)) == p.keys[i];
      if p.keys[i] != INVALID && p.keys[i] > pivot {
        var m1 := MoveOneOk(n, l, c, pivot, i, rest, m, p, q);
        m' := MoveOk(n, l, c, pivot, i + 1, rest, m1, Clear(p, i), Put(q, p.keys[i], p.vals[i]));
        ReachesOn(start, Spot(MoveFrom(n, l, c, pivot, i + 1, rest), m1), Spot(rest, m'));
      } else {
        m' := MoveOk(n, l, c, pivot, i + 1, rest, m, p, q);
        ReachesNext(start, Spot(rest, m'));
      }
    }
  }

  /** The pair of slot i, once loaded, goes to leaf c. */
  lemma ShiftKey(n: Pos, l: nat, c: nat, i: nat, more: Prog, m: Mem, p: Page, q: Page) returns (m': Mem)
    requires Shows(m, n, l, p) && Shows(m, n, c, q) && l != c && i < n
    ensures var clear := StoreCell(Cell(n, KeyAt(l, i)), INVALID, more);
      Reaches(Spot(AddKey(n, c, p.keys[i], p.vals[i], clear, clear), m), Spot(more, m'))
    ensures Shows(m', n, l, Clear(p, i)) && Shows(m', n, c, Put(q, p.keys[i], p.vals[i]))
    ensures Only(m, m', n, l, c)
  {
    var k, v := p.keys[i], p.vals[i];
    var clear := StoreCell(Cell(n, KeyAt(l, i)), INVALID, more);
    var m1 := AddAny(n, c, k, v, clear, m, q);
    OnlyOthers(m, m1, n, c, c, l, p);
    m' := Set(m1, n, KeyAt(l, i), INVALID);
    SetAt(m1, n, KeyAt(l, i), INVALID);
    ReachesItself(Spot(more, m'));
    ReachesNext(Spot(clear, m1), Spot(more, m'));
    ReachesOn(Spot(AddKey(n, c, k, v, clear, clear), m), Spot(clear, m1), Spot(more, m'));
  }

  lemma MoveOneOk(n: Pos, l: nat, c: nat, pivot: Key, i: nat, rest: Prog, m: Mem, p: Page, q: Page)
    returns (m': Mem)
    requires Shows(m, n, l, p) && Shows(m, n, c, q) && l != c && i < n
    requires p.keys[i] != INVALID && p.keys[i] > pivot
    ensures Reaches(Spot(MoveFrom(n, l, c, pivot, i, rest), m), Spot(MoveFrom(n, l, c, pivot, i + 1, rest), m'))
    ensures Shows(m', n, l, Clear(p, i)) && Shows(m', n, c, Put(q, p.keys[i], p.vals[i]))
    ensures Only(m, m', n, l, c)
  {
    var k, v := p.keys[i], p.vals[i];
    var more := MoveFrom(n, l, c, pivot, i + 1, rest);
    assert At(m, n, KeyAt(l, i)) == k && At(m, n, ValueAt(l, i)) == v;
    m' := ShiftKey(n, l, c, i, more, m, p, q);
    var clear := StoreCell(Cell(n, KeyAt(l, i)), INVALID, more);
    var start := Spot(MoveFrom(n, l, c, pivot, i, rest), m);
    var next := Tick(start);
    assert Tick(next) == Spot(AddKey(n, c, k, v, clear, clear), m);
    ReachesNext(next, Spot(more, m'));
    ReachesNext(start, Spot(more, m'));
  }

  // ---------- splitting a leaf ----------

  function ReadKeys(n: Pos, l: nat, i: nat, seen: seq<int>, cont: seq<int> -> Prog): Prog
    decreases n - i
  {
    if i >= n then cont(seen)
    else LoadCell(Cell(n, KeyAt(l, i)), (x: int) => ReadKeys(n, l, i + 1, seen + [x], cont))
  }

  lemma ReadKeysOk(n: Pos, l: nat, i: nat, cont: seq<int> -> Prog, m: Mem, p: Page)
    requires Shows(m, n, l, p) && i <= n
    ensures Reaches(Spot(ReadKeys(n, l, i, p.keys[..i], cont), m), Spot(cont(p.keys), m))
    decreases n - i
  {
    var end := Spot(cont(p.keys), m);
    if i == n {
      assert p.keys[..i] == p.keys;
      ReachesItself(end);
    } else {
      assert At(m, n, KeyAt(l, i)) == p.keys[i] && p.keys[..i + 1] == p.keys[..i] + [p.keys[i]];
      ReadKeysOk(n, l, i + 1, cont, m, p);
      ReachesNext(Spot(ReadKeys(n, l, i, p.keys[..i], cont), m), end);
    }
  }

  function AsKey(x: int): Key {
    if 0 <= x <= INVALID then x else INVALID
  }

  function AsKeys(s: seq<int>): (r: seq<Key>)
    ensures |r| == |s| && forall i :: 0 <= i < |s| ==> r[i] == AsKey(s[i])
  {
    seq(|s|, i requires 0 <= i < |s| => AsKey(s[i]))
  }

  /** find_median_key, on the keys that were read. */
  function MedianOf(keys: seq<int>): nat {
    if keys == [] then 0 else MedianSlot(AsKeys(keys))
  }

  lemma MedianOfKeys(keys: seq<Key>)
    requires keys != []
    ensures MedianOf(keys) == MedianSlot(keys)
  {
    assert AsKeys(keys) == keys;
  }

  /** The new pair goes to the half it belongs to. */
  function AddEither(n: Pos, l: nat, c: nat, k: int, v: int, pivot: int, rest: Prog): Prog {
    AddKey(n, if k > pivot then c else l, k, v, rest, rest)
  }

  function MovePivot(n: Pos, l: nat, c: nat, k: int, v: int, i: nat, rest: Prog): Prog {
    LoadCell(Cell(n, KeyAt(l, i)), (pivot: int) =>
      LoadCell(Cell(n, ValueAt(l, i)), (y: int) =>
        var clear := StoreCell(Cell(n, KeyAt(l, i)), INVALID,
                               MoveFrom(n, l, c, pivot, 0, AddEither(n, l, c, k, v, pivot, rest)));
        AddKey(n, c, pivot, y, clear, clear)))
  }

  /** The split of leaf l into the blank leaf c. */
  function SplitLeaf(n: Pos, l: nat, c: nat, k: int, v: int, rest: Prog): Prog {
    ReadKeys(n, l, 0, [], (keys: seq<int>) => MovePivot(n, l, c, k, v, MedianOf(keys), rest))
  }

  lemma MovePivotOk(n: Pos, l: nat, c: nat, k: Key, v: Value, rest: Prog, m: Mem, p: Page, q: Page) returns (m': Mem)
    requires Shows(m, n, l, p) && Shows(m, n, c, q) && l != c
    ensures var i := MedianSlot(p.keys);
      Reaches(Spot(MovePivot(n, l, c, k, v, i, rest), m),
              Spot(MoveFrom(n, l, c, p.keys[i], 0, AddEither(n, l, c, k, v, p.keys[i], rest)), m'))
    ensures var (a, b) := PivotMoved(p, q); Shows(m', n, l, a) && Shows(m', n, c, b)
    ensures Only(m, m', n, l, c)
  {
    var i := MedianSlot(p.keys);
    var pivot, y := p.keys[i], p.vals[i];
    assert At(m, n, KeyAt(l, i)) == pivot && At(m, n, ValueAt(l, i)) == y;
    var more := MoveFrom(n, l, c, pivot, 0, AddEither(n, l, c, k, v, pivot, rest));
    m' := ShiftKey(n, l, c, i, more, m, p, q);
    var clear := StoreCell(Cell(n, KeyAt(l, i)), INVALID, more);
    var start := Spot(MovePivot(n, l, c, k, v, i, rest), m);
    var next := Tick(start);
    assert Tick(next) == Spot(AddKey(n, c, pivot, y, clear, clear), m);
    ReachesNext(next, Spot(more, m'));
    ReachesNext(start, Spot(more, m'));
  }

  /** It makes of the two pages what LeafInsert does. */
  lemma SplitOk(n: Pos, l: nat, c: nat, k: Key, v: Value, rest: Prog, m: Mem, p: Page, q: Page, cand: Leaf)
    returns (m': Mem)
    requires Shows(m, n, l, p) && Shows(m, n, c, q) && l != c && p.Full()
    ensures Reaches(Spot(SplitLeaf(n, l, c, k, v, rest), m), Spot(rest, m'))
    ensures var r := LeafInsert(p, cand, q, k, v); Shows(m', n, l, r.left) && Shows(m', n, c, r.right)
    ensures Only(m, m', n, l, c)
  {
    var cont := (keys: seq<int>) => MovePivot(n, l, c, k, v, MedianOf(keys), rest);
    MedianOfKeys(p.keys);
    ReadKeysOk(n, l, 0, cont, m, p);
    var pivot := p.keys[MedianSlot(p.keys)];
    var add := AddEither(n, l, c, k, v, pivot, rest);
    var m1 := MovePivotOk(n, l, c, k, v, rest, m, p, q);
    var (p1, q1) := PivotMoved(p, q);
    var m2 := MoveOk(n, l, c, pivot, 0, add, m1, p1, q1);
    var (p2, q2) := Halves(p, q);
    assert Shows(m2, n, l, p2) && Shows(m2, n, c, q2);
    m' := AddAny(n, if k > pivot then c else l, k, v, rest, m2, if k > pivot then q2 else p2);
    OnlyOthers(m2, m', n, if k > pivot then c else l, if k > pivot then c else l, if k > pivot then l else c,
               if k > pivot then p2 else q2);
    assert p.keys[..0] == [];
    var start := Spot(SplitLeaf(n, l, c, k, v, rest), m);
    ReachesOn(start, Spot(cont(p.keys), m), Spot(MoveFrom(n, l, c, pivot, 0, add), m1));
    ReachesOn(start, Spot(MoveFrom(n, l, c, pivot, 0, add), m1), Spot(add, m2));
    ReachesOn(start, Spot(add, m2), Spot(rest, m'));
  }

  // ---------- the inner node ----------

  /** The inner node has these separators and children. */
  ghost predicate ShowsNode(m: Mem, n: Pos, seps: seq<Key>, chd: seq<nat>) {
    && |chd| == |seps| + 1 && At(m, n, Count) == |seps|
    && (forall i {:trigger At(m, n, SepAt(i))} :: 0 <= i < |seps| ==> At(m, n, SepAt(i)) == seps[i])
    && (forall i {:trigger At(m, n, ChildAt(i))} :: 0 <= i < |chd| ==> At(m, n, ChildAt(i)) == chd[i])
  }

  function FindChild(n: Pos, i: nat, count: nat, k: int, cont: nat -> Prog): Prog
    decreases count - i
  {
    if i >= count then cont(i)
    else LoadCell(Cell(n, SepAt(i)), (x: int) => if k < x then cont(i) else FindChild(n, i + 1, count, k, cont))
  }

  lemma FindChildOk(n: Pos, i: nat, k: Key, cont: nat -> Prog, m: Mem, seps: seq<Key>, chd: seq<nat>)
    requires ShowsNode(m, n, seps, chd) && i <= |seps| && forall j :: 0 <= j < i ==> seps[j] <= k
    ensures Reaches(Spot(FindChild(n, i, |seps|, k, cont), m), Spot(cont(ChildIdx(seps, k)), m))
    decreases |seps| - i
  {
    var c := ChildIdx(seps, k);
    assert !(c < i);
    var end := Spot(cont(c), m);
    if i == |seps| {
      ReachesItself(end);
    } else {
      assert At(m, n, SepAt(i)) == seps[i];
      if k < seps[i] {
        ReachesItself(end);
      } else {
        FindChildOk(n, i + 1, k, cont, m, seps, chd);
      }
      ReachesNext(Spot(FindChild(n, i, |seps|, k, cont), m), end);
    }
  }

  /** Make room for a separator at pos, from position i down. */
  function Shift(n: Pos, pos: nat, i: nat, rest: Prog): Prog
    decreases i
  {
    if i <= pos then rest
    else
      LoadCell(Cell(n, SepAt(i - 1)), (x: int) =>
        StoreCell(Cell(n, SepAt(i)), x, LoadCell(Cell(n, ChildAt(i)), (y: int) =>
          StoreCell(Cell(n, ChildAt(i + 1)), y, Shift(n, pos, i - 1, rest)))))
  }

  /** insert_at_pos. */
  function InsertSep(n: Pos, pos: nat, count: nat, up: int, c: nat, rest: Prog): Prog {
    Shift(n, pos, count, StoreCell(Cell(n, SepAt(pos)), up, StoreCell(Cell(n, ChildAt(pos + 1)), c,
      StoreCell(Cell(n, Count), count + 1, rest))))
  }

  /** No leaf differs. */
  ghost predicate LeavesSame(m: Mem, m': Mem, n: Pos) {
    forall x {:trigger At(m', n, x)} :: Proper(n, x) && (x.KeyAt? || x.ValueAt?) ==> At(m', n, x) == At(m, n, x)
  }

  lemma SameShows(m: Mem, m': Mem, n: Pos, l: nat, p: Page)
    requires LeavesSame(m, m', n) && Shows(m, n, l, p)
    ensures Shows(m', n, l, p)
  {}

  /** The entries behind i have moved by one. */
  ghost predicate Shifted(m: Mem, n: Pos, seps: seq<Key>, chd: seq<nat>, i: nat) {
    && |chd| == |seps| + 1 && i <= |seps|
    && (forall j {:trigger At(m, n, SepAt(j))} ::
          (0 <= j < i ==> At(m, n, SepAt(j)) == seps[j]) && (i < j <= |seps| ==> At(m, n, SepAt(j)) == seps[j - 1]))
    && (forall j {:trigger At(m, n, ChildAt(j))} ::
          && (0 <= j <= i ==> At(m, n, ChildAt(j)) == chd[j])
          && (i + 1 < j <= |seps| + 1 ==> At(m, n, ChildAt(j)) == chd[j - 1]))
  }

  /** Separator i - 1 and child i have been copied one further. */
  function ShiftMem(m: Mem, n: Pos, i: nat, x: int, y: int): Mem {
    Set(Set(m, n, SepAt(i), x), n, ChildAt(i + 1), y)
  }

  lemma ShiftMemAt(m: Mem, n: Pos, i: nat, x: int, y: int)
    ensures forall z {:trigger At(ShiftMem(m, n, i, x, y), n, z)} :: Proper(n, z) ==>
      At(ShiftMem(m, n, i, x, y), n, z) == if z == SepAt(i) then x else if z == ChildAt(i + 1) then y else At(m, n, z)
  {
    SetAt(m, n, SepAt(i), x);
    SetAt(Set(m, n, SepAt(i), x), n, ChildAt(i + 1), y);
  }

  lemma ShiftedMore(m: Mem, n: Pos, seps: seq<Key>, chd: seq<nat>, i: nat)
    requires Shifted(m, n, seps, chd, i) && i > 0
    ensures var m' := ShiftMem(m, n, i, seps[i - 1], chd[i]);
      Shifted(m', n, seps, chd, i - 1) && LeavesSame(m, m', n)
  {
    ShiftMemAt(m, n, i, seps[i - 1], chd[i]);
  }

  lemma ShiftOne(n: Pos, pos: nat, i: nat, rest: Prog, m: Mem, seps: seq<Key>, chd: seq<nat>)
    requires Shifted(m, n, seps, chd, i) && pos < i
    ensures Reaches(Spot(Shift(n, pos, i, rest), m),
                    Spot(Shift(n, pos, i - 1, rest), ShiftMem(m, n, i, seps[i - 1], chd[i])))
  {
    var x, y := seps[i - 1], chd[i];
    assert At(m, n, SepAt(i - 1)) == x && At(m, n, ChildAt(i)) == y;
    SetAt(m, n, SepAt(i), x);
    assert At(Set(m, n, SepAt(i), x), n, ChildAt(i)) == y;
    var a := Spot(Shift(n, pos, i, rest), m);
    var end := Spot(Shift(n, pos, i - 1, rest), ShiftMem(m, n, i, x, y));
    var b := Tick(a);
    var c := Tick(b);
    var d := Tick(c);
    assert Tick(d) == end;
    ReachesItself(end);
    ReachesNext(d, end);
    ReachesNext(c, end);
    ReachesNext(b, end);
    ReachesNext(a, end);
  }

  lemma {:induction false} ShiftOk(n: Pos, pos: nat, i: nat, rest: Prog, m: Mem, seps: seq<Key>, chd: seq<nat>)
    returns (m': Mem)
    requires Shifted(m, n, seps, chd, i) && pos <= i
    ensures Reaches(Spot(Shift(n, pos, i, rest), m), Spot(rest, m'))
    ensures Shifted(m', n, seps, chd, pos) && LeavesSame(m, m', n)
    decreases i
  {
    if i == pos {
      m' := m;
      ReachesItself(Spot(rest, m));
    } else {
      var m1 := ShiftMem(m, n, i, seps[i - 1], chd[i]);
      ShiftOne(n, pos, i, rest, m, seps, chd);
      ShiftedMore(m, n, seps, chd, i);
      m' := ShiftOk(n, pos, i - 1, rest, m1, seps, chd);
      ReachesOn(Spot(Shift(n, pos, i, rest), m), Spot(Shift(n, pos, i - 1, rest), m1), Spot(rest, m'));
    }
  }

  function SepMem(m: Mem, n: Pos, pos: nat, up: int, c: nat, count: nat): Mem {
    Set(Set(Set(m, n, SepAt(pos), up), n, ChildAt(pos + 1), c), n, Count, count)
  }

  lemma SepMemAt(m: Mem, n: Pos, pos: nat, up: int, c: nat, count: nat)
    ensures forall z {:trigger At(SepMem(m, n, pos, up, c, count), n, z)} :: Proper(n, z) ==>
      At(SepMem(m, n, pos, up, c, count), n, z)
      == if z == SepAt(pos) then up else if z == ChildAt(pos + 1) then c else if z == Count then count
         else At(m, n, z)
  {
    var m1 := Set(m, n, SepAt(pos), up);
    var m2 := Set(m1, n, ChildAt(pos + 1), c);
    SetAt(m, n, SepAt(pos), up);
    SetAt(m1, n, ChildAt(pos + 1), c);
    SetAt(m2, n, Count, count);
  }

  lemma SepMemShows(m: Mem, n: Pos, pos: nat, up: Key, c: nat, seps: seq<Key>, chd: seq<nat>)
    requires Shifted(m, n, seps, chd, pos)
    ensures var m' := SepMem(m, n, pos, up, c, |seps| + 1);
      ShowsNode(m', n, Inserted(seps, pos, up), Inserted(chd, pos + 1, c)) && LeavesSame(m, m', n)
  {
    SepMemAt(m, n, pos, up, c, |seps| + 1);
  }

  /** The node gets the separator and the child right of it. */
  lemma InsertSepOk(n: Pos, pos: nat, up: Key, c: nat, rest: Prog, m: Mem, seps: seq<Key>, chd: seq<nat>)
    returns (m': Mem)
    requires ShowsNode(m, n, seps, chd) && pos <= |seps|
    ensures Reaches(Spot(InsertSep(n, pos, |seps|, up, c, rest), m), Spot(rest, m'))
    ensures ShowsNode(m', n, Inserted(seps, pos, up), Inserted(chd, pos + 1, c)) && LeavesSame(m, m', n)
  {
    var s3 := StoreCell(Cell(n, Count), |seps| + 1, rest);
    var s2 := StoreCell(Cell(n, ChildAt(pos + 1)), c, s3);
    var s1 := StoreCell(Cell(n, SepAt(pos)), up, s2);
    var m0 := ShiftOk(n, pos, |seps|, s1, m, seps, chd);
    m' := SepMem(m0, n, pos, up, c, |seps| + 1);
    SepMemShows(m0, n, pos, up, c, seps, chd);
    var m1 := Set(m0, n, SepAt(pos), up);
    ReachesItself(Spot(rest, m'));
    ReachesNext(Spot(s3, Set(m1, n, ChildAt(pos + 1), c)), Spot(rest, m'));
    ReachesNext(Spot(s2, m1), Spot(rest, m'));
    ReachesNext(Spot(s1, m0), Spot(rest, m'));
    ReachesOn(Spot(InsertSep(n, pos, |seps|, up, c, rest), m), Spot(s1, m0), Spot(rest, m'));
  }

  // ---------- the operations ----------

  function Nat(x: int): nat {
    if x < 0 then 0 else x
  }

  /** get: find the leaf, then the key's slot. */
  function GetProg(n: Pos, k: int): Prog {
    LoadCell(Cell(n, Count), (c: int) => FindChild(n, 0, Nat(c), k, (i: nat) => GetChild(n, k, i)))
  }

  function GetChild(n: Pos, k: int, i: nat): Prog {
    LoadCell(Cell(n, ChildAt(i)), (l: int) => Scan(n, Nat(l), k, 0, (j: nat) => GetValue(n, Nat(l), j)))
  }

  function GetValue(n: Pos, l: nat, j: nat): Prog {
    if j < n then LoadCell(Cell(n, ValueAt(l, j)), (v: int) => Done(v)) else Done(MISSING)
  }

  /** insert_core, with leaf c + 1 at hand for a split. */
  function InsertProg(n: Pos, k: int, v: int): Prog {
    LoadCell(Cell(n, Count), (c: int) => FindChild(n, 0, Nat(c), k, (i: nat) => InsertChild(n, k, v, Nat(c), i)))
  }

  function InsertChild(n: Pos, k: int, v: int, c: nat, i: nat): Prog {
    LoadCell(Cell(n, ChildAt(i)), (l: int) => InsertLeaf(n, k, v, c, i, Nat(l)))
  }

  /** The leaf takes the pair, or splits; a full node is not split here. */
  function InsertLeaf(n: Pos, k: int, v: int, c: nat, i: nat, l: nat): Prog {
    AddKey(n, l, k, v, if c >= n then Done(NO_ROOM) else SplitLeaf(n, l, c + 1, k, v, TakeUp(n, c, i)), Done(0))
  }

  const NO_ROOM := -2

  /** The first key of the new leaf becomes the separator. */
  function TakeUp(n: Pos, c: nat, i: nat): Prog {
    LoadCell(Cell(n, KeyAt(c + 1, 0)), (up: int) => InsertSep(n, i, c, up, c + 1, Done(1)))
  }

  // ---------- the tree in memory ----------

  /** The leaves in the order of the children. */
  ghost predicate Arranged(tips: seq<Tip>, chd: seq<nat>, pages: seq<Page>) {
    && |tips| == |chd|
    && forall i {:trigger tips[i]} {:trigger chd[i]} :: 0 <= i < |chd| ==>
         chd[i] < |pages| && tips[i].page == pages[chd[i]]
  }

  /** The children are the first so many leaves, in some order. */
  ghost predicate Numbered(chd: seq<nat>) {
    && (forall i {:trigger chd[i]} :: 0 <= i < |chd| ==> chd[i] < |chd|)
    && (forall i, j :: 0 <= i < j < |chd| ==> chd[i] != chd[j])
  }

  /** Memory m holds the node and the leaves, numbered from 0 in the order in
      which they were linked; those not linked yet are blank. */
  ghost predicate Stands(m: Mem, n: Pos, seps: seq<Key>, chd: seq<nat>, pages: seq<Page>, tips: seq<Tip>) {
    && ShowsNode(m, n, seps, chd) && |pages| == n + 1
    && (forall l {:trigger pages[l]} :: 0 <= l <= n ==> Shows(m, n, l, pages[l]))
    && (forall l {:trigger pages[l]} :: |chd| <= l <= n ==> pages[l].Blank(n))
    && Numbered(chd) && Arranged(tips, chd, pages) && Sound(n, seps, tips)
  }

  function SepsIn(m: Mem, n: Pos): (r: seq<Key>)
    ensures |r| == Nat(At(m, n, Count)) && forall i :: 0 <= i < |r| ==> r[i] == AsKey(At(m, n, SepAt(i)))
  {
    seq(Nat(At(m, n, Count)), i requires 0 <= i => AsKey(At(m, n, SepAt(i))))
  }

  function ChildrenIn(m: Mem, n: Pos): (r: seq<nat>)
    ensures |r| == Nat(At(m, n, Count)) + 1 && forall i :: 0 <= i < |r| ==> r[i] == Nat(At(m, n, ChildAt(i)))
  {
    seq(Nat(At(m, n, Count)) + 1, i requires 0 <= i => Nat(At(m, n, ChildAt(i))))
  }

  function PageIn(m: Mem, n: Pos, l: nat): (p: Page)
    ensures |p.keys| == |p.vals| == n
    ensures forall j :: 0 <= j < n ==> p.keys[j] == AsKey(At(m, n, KeyAt(l, j)))
    ensures forall j :: 0 <= j < n ==> p.vals[j] == AsKey(At(m, n, ValueAt(l, j)))
  {
    Page(seq(n, j requires 0 <= j => AsKey(At(m, n, KeyAt(l, j)))),
         seq(n, j requires 0 <= j => AsKey(At(m, n, ValueAt(l, j)))), 0, null)
  }

  function PagesIn(m: Mem, n: Pos): (r: seq<Page>)
    ensures |r| == n + 1 && forall l :: 0 <= l <= n ==> r[l] == PageIn(m, n, l)
  {
    seq(n + 1, l requires 0 <= l => PageIn(m, n, l))
  }

  /** any stands for the leaf objects, which pages in memory do not need. */
  function TipsIn(m: Mem, n: Pos, any: Leaf): (r: seq<Tip>)
    ensures |r| == |ChildrenIn(m, n)|
    ensures forall i :: 0 <= i < |r| ==> r[i] == Tip(any, PageIn(m, n, ChildrenIn(m, n)[i]))
  {
    seq(|ChildrenIn(m, n)|, i requires 0 <= i < |ChildrenIn(m, n)| => Tip(any, PageIn(m, n, ChildrenIn(m, n)[i])))
  }

  ghost predicate Holds(m: Mem, n: Pos, any: Leaf) {
    Stands(m, n, SepsIn(m, n), ChildrenIn(m, n), PagesIn(m, n), TipsIn(m, n, any))
  }

  ghost function TableIn(m: Mem, n: Pos, any: Leaf): map<Key, Value> {
    TableOf(n, TipsIn(m, n, any))
  }

  lemma ReadBack(m: Mem, n: Pos, l: nat, p: Page)
    requires Shows(m, n, l, p)
    ensures PageIn(m, n, l).keys == p.keys && PageIn(m, n, l).vals == p.vals
  {
    forall j | 0 <= j < n ensures PageIn(m, n, l).keys[j] == p.keys[j] && PageIn(m, n, l).vals[j] == p.vals[j] {
      assert At(m, n, KeyAt(l, j)) == p.keys[j] && At(m, n, ValueAt(l, j)) == p.vals[j];
    }
  }

  lemma NodeBack(m: Mem, n: Pos, seps: seq<Key>, chd: seq<nat>)
    requires ShowsNode(m, n, seps, chd)
    ensures SepsIn(m, n) == seps && ChildrenIn(m, n) == chd
  {
    forall i | 0 <= i < |seps| ensures SepsIn(m, n)[i] == seps[i] {
      assert At(m, n, SepAt(i)) == seps[i];
    }
    forall i | 0 <= i < |chd| ensures ChildrenIn(m, n)[i] == chd[i] {
      assert At(m, n, ChildAt(i)) == chd[i];
    }
  }

  /** What stands in memory is what is read from it. */
  lemma StandsHolds(m: Mem, n: Pos, seps: seq<Key>, chd: seq<nat>, pages: seq<Page>, tips: seq<Tip>, any: Leaf)
    requires Stands(m, n, seps, chd, pages, tips)
    ensures Holds(m, n, any) && TableIn(m, n, any) == TableOf(n, tips)
  {
    NodeBack(m, n, seps, chd);
    var ps, ts := PagesIn(m, n), TipsIn(m, n, any);
    forall l | 0 <= l <= n ensures Shows(m, n, l, ps[l]) && (|chd| <= l ==> ps[l].Blank(n)) {
      assert Shows(m, n, l, pages[l]);
      ReadBack(m, n, l, pages[l]);
    }
    forall i | 0 <= i < |tips| ensures ts[i].page.keys == tips[i].page.keys && ts[i].page.vals == tips[i].page.vals {
      assert Shows(m, n, chd[i], pages[chd[i]]);
      ReadBack(m, n, chd[i], pages[chd[i]]);
    }
    AlikeSound(n, seps, tips, ts);
  }

  /** A leaf as it comes from the pool. */
  function NewLeaf(n: Pos, any: Leaf): Tip {
    Tip(any, Page(seq(n, i => INVALID), seq(n, i => 0), 0, null))
  }

  /** A memory with an empty leaf as the root, and blank leaves to come. */
  function EmptyMem(n: Pos): Mem {
    map a: nat | a < 4 * Encode(n, n, n) :: if a % 4 == 3 then INVALID else 0
  }

  lemma EmptySlot(n: Pos, l: nat, j: nat)
    requires l <= n && j < n
    ensures At(EmptyMem(n), n, KeyAt(l, j)) == INVALID && At(EmptyMem(n), n, ValueAt(l, j)) == 0
  {
    Scale(l, n, n);
  }

  /** It stands for the empty table. */
  lemma EmptyHolds(n: Pos, any: Leaf)
    requires n >= 2
    ensures Holds(EmptyMem(n), n, any) && TableIn(EmptyMem(n), n, any) == map[]
  {
    var m, p := EmptyMem(n), NewLeaf(n, any).page;
    forall l: nat, j: nat | l <= n && j < n
      ensures At(m, n, KeyAt(l, j)) == INVALID && At(m, n, ValueAt(l, j)) == 0
    {
      EmptySlot(n, l, j);
    }
    var pages, tips := seq(n + 1, l => p), [NewLeaf(n, any)];
    BlankSound(n, tips[0]);
    assert At(m, n, Count) == 0 && At(m, n, ChildAt(0)) == 0;
    StandsHolds(m, n, [], [0], pages, tips, any);
  }

  // ---------- get ----------

  function Found(r: Option<Value>): int {
    match r
    case Some(v) => v
    case None => MISSING
  }

  lemma GetLeafOk(n: Pos, l: nat, k: Key, m: Mem, p: Page)
    requires Shows(m, n, l, p)
    ensures Reaches(Spot(Scan(n, l, k, 0, (j: nat) => GetValue(n, l, j)), m), Spot(Done(Found(PageGet(p, k))), m))
  {
    var cont := (j: nat) => GetValue(n, l, j);
    var j := First(p.keys, k);
    ScanOk(n, l, k, 0, cont, m, p);
    var end := Spot(Done(Found(PageGet(p, k))), m);
    ReachesItself(end);
    if j < n {
      assert At(m, n, ValueAt(l, j)) == p.vals[j];
      ReachesNext(Spot(cont(j), m), end);
    }
    ReachesOn(Spot(Scan(n, l, k, 0, cont), m), Spot(cont(j), m), end);
  }

  lemma GetOk(m: Mem, n: Pos, k: Key, seps: seq<Key>, chd: seq<nat>, pages: seq<Page>, tips: seq<Tip>)
    requires Stands(m, n, seps, chd, pages, tips) && k != INVALID
    ensures var t := TableOf(n, tips);
      Reaches(Spot(GetProg(n, k), m), Spot(Done(Found(if k in t then Some(t[k]) else None)), m))
  {
    var i := ChildIdx(seps, k);
    var l := chd[i];
    assert Shows(m, n, l, pages[l]) && tips[i].page == pages[l] && At(m, n, ChildAt(i)) == l;
    FlatLookup(n, seps, tips, k);
    GetLeafOk(n, l, k, m, pages[l]);
    var cont := (i: nat) => GetChild(n, k, i);
    var end := Spot(Done(Found(PageGet(pages[l], k))), m);
    ReachesNext(Spot(cont(i), m), end);
    FindChildOk(n, 0, k, cont, m, seps, chd);
    ReachesOn(Spot(FindChild(n, 0, |seps|, k, cont), m), Spot(cont(i), m), end);
    ReachesNext(Spot(GetProg(n, k), m), end);
  }

  // ---------- insert ----------

  lemma OnlyNode(m: Mem, m': Mem, n: Pos, a: nat, b: nat, seps: seq<Key>, chd: seq<nat>)
    requires ShowsNode(m, n, seps, chd) && Only(m, m', n, a, b)
    ensures ShowsNode(m', n, seps, chd)
  {}

  /** Leaf l takes the pair. */
  lemma KeepStands(m: Mem, m': Mem, n: Pos, k: Key, v: Value, seps: seq<Key>, chd: seq<nat>, pages: seq<Page>,
                   tips: seq<Tip>, any: Leaf)
    requires Stands(m, n, seps, chd, pages, tips) && k !in TableOf(n, tips) && k != INVALID
    requires var i := ChildIdx(seps, k);
      && !tips[i].page.Full() && Only(m, m', n, chd[i], chd[i]) && |tips[i].page.keys| == |tips[i].page.vals|
      && Shows(m', n, chd[i], Put(tips[i].page, k, v))
    ensures Holds(m', n, any) && TableIn(m', n, any) == TableOf(n, tips)[k := v]
  {
    var i := ChildIdx(seps, k);
    var l := chd[i];
    var p := Put(tips[i].page, k, v);
    var pages', tips' := pages[l := p], tips[i := Tip(tips[i].leaf, p)];
    KeyKept(n, seps, tips, k, v, NewLeaf(n, any));
    OnlyNode(m, m', n, l, l, seps, chd);
    forall a | 0 <= a <= n ensures Shows(m', n, a, pages'[a]) {
      assert Shows(m, n, a, pages[a]);
      if a != l {
        OnlyOthers(m, m', n, l, l, a, pages[a]);
      }
    }
    forall a | |chd| <= a <= n ensures pages'[a].Blank(n) {
      assert pages[a].Blank(n);
    }
    StandsHolds(m', n, seps, chd, pages', tips', any);
  }

  /** Leaf chd[i] splits into leaf |chd|. */
  ghost predicate Splitting(m: Mem, m1: Mem, m': Mem, n: Pos, i: nat, up: Key, seps: seq<Key>, chd: seq<nat>,
                            left: Page, right: Page) {
    && i <= |seps| && |chd| == |seps| + 1 && Only(m, m1, n, chd[i], |chd|) && LeavesSame(m1, m', n)
    && Shows(m1, n, chd[i], left) && Shows(m1, n, |chd|, right)
    && ShowsNode(m', n, Inserted(seps, i, up), Inserted(chd, i + 1, |chd|))
  }

  lemma SplitShows(m: Mem, m1: Mem, m': Mem, n: Pos, i: nat, up: Key, seps: seq<Key>, chd: seq<nat>,
                   left: Page, right: Page, pages: seq<Page>, a: nat)
    requires Splitting(m, m1, m', n, i, up, seps, chd, left, right) && a < |pages| && Shows(m, n, a, pages[a])
    requires chd[i] < |chd| < |pages|
    ensures Shows(m', n, a, pages[chd[i] := left][|chd| := right][a])
  {
    if a != chd[i] && a != |chd| {
      OnlyOthers(m, m1, n, chd[i], |chd|, a, pages[a]);
    }
    SameShows(m1, m', n, a, pages[chd[i] := left][|chd| := right][a]);
  }

  lemma InsertedAt<T>(s: seq<T>, i: nat, x: T, j: nat)
    requires i <= |s| && j <= |s|
    ensures Inserted(s, i, x)[j] == if j < i then s[j] else if j == i then x else s[j - 1]
  {}

  /** The children, with the new leaf among them. */
  lemma SplitNumbered(chd: seq<nat>, i: nat)
    requires Numbered(chd) && i < |chd|
    ensures Numbered(Inserted(chd, i + 1, |chd|))
  {
    var chd' := Inserted(chd, i + 1, |chd|);
    forall a | 0 <= a < |chd'| ensures chd'[a] < |chd'| {
      InsertedAt(chd, i + 1, |chd|, a);
    }
    forall a, b | 0 <= a < b < |chd'| ensures chd'[a] != chd'[b] {
      InsertedAt(chd, i + 1, |chd|, a);
      InsertedAt(chd, i + 1, |chd|, b);
    }
  }

  lemma SplitArranged(tips: seq<Tip>, chd: seq<nat>, pages: seq<Page>, i: nat, l: Tip, r: Tip)
    requires Arranged(tips, chd, pages) && Numbered(chd) && i < |chd| < |pages|
    ensures Arranged(Inserted(tips[i := l], i + 1, r), Inserted(chd, i + 1, |chd|),
                     pages[chd[i] := l.page][|chd| := r.page])
  {
    var chd', pages' := Inserted(chd, i + 1, |chd|), pages[chd[i] := l.page][|chd| := r.page];
    var tips' := Inserted(tips[i := l], i + 1, r);
    forall j | 0 <= j < |chd'| ensures chd'[j] < |pages'| && tips'[j].page == pages'[chd'[j]] {
      InsertedAt(chd, i + 1, |chd|, j);
      InsertedAt(tips[i := l], i + 1, r, j);
      if j != i + 1 {
        var b := if j <= i then j else j - 1;
        assert tips[b].page == pages[chd[b]] && chd[b] < |chd|;
        assert chd[b] == chd[i] ==> b == i;
      }
    }
  }

  /** What the split leaves in the leaves. */
  lemma SplitLeaves(m: Mem, m1: Mem, m': Mem, n: Pos, i: nat, up: Key, seps: seq<Key>, chd: seq<nat>, left: Page,
                    right: Page, pages: seq<Page>)
    requires Splitting(m, m1, m', n, i, up, seps, chd, left, right) && chd[i] < |chd| < |pages| == n + 1
    requires forall l {:trigger pages[l]} :: 0 <= l <= n ==> Shows(m, n, l, pages[l])
    requires forall l {:trigger pages[l]} :: |chd| <= l <= n ==> pages[l].Blank(n)
    ensures var pages' := pages[chd[i] := left][|chd| := right];
      && (forall l {:trigger pages'[l]} :: 0 <= l <= n ==> Shows(m', n, l, pages'[l]))
      && (forall l {:trigger pages'[l]} :: |chd| + 1 <= l <= n ==> pages'[l].Blank(n))
  {
    var pages' := pages[chd[i] := left][|chd| := right];
    forall a | 0 <= a <= n ensures Shows(m', n, a, pages'[a]) {
      assert Shows(m, n, a, pages[a]);
      SplitShows(m, m1, m', n, i, up, seps, chd, left, right, pages, a);
    }
    forall a | |chd| + 1 <= a <= n ensures pages'[a].Blank(n) {
      assert pages[a].Blank(n);
    }
  }

  /** Child i has become l, with r right of it. */
  lemma SplitStands(m: Mem, m1: Mem, m': Mem, n: Pos, i: nat, seps: seq<Key>, chd: seq<nat>, pages: seq<Page>,
                    tips: seq<Tip>, l: Tip, r: Tip)
    requires Stands(m, n, seps, chd, pages, tips) && |seps| < n && |r.page.keys| > 0
    requires Splitting(m, m1, m', n, i, r.page.keys[0], seps, chd, l.page, r.page)
    requires Sound(n, Inserted(seps, i, r.page.keys[0]), Inserted(tips[i := l], i + 1, r))
    ensures Stands(m', n, Inserted(seps, i, r.page.keys[0]), Inserted(chd, i + 1, |chd|),
                   pages[chd[i] := l.page][|chd| := r.page], Inserted(tips[i := l], i + 1, r))
  {
    SplitNumbered(chd, i);
    SplitArranged(tips, chd, pages, i, l, r);
    SplitLeaves(m, m1, m', n, i, r.page.keys[0], seps, chd, l.page, r.page, pages);
  }

  /** The insert once it is at its leaf, when that has room. */
  lemma InsertKeeps(m: Mem, n: Pos, k: Key, v: Value, seps: seq<Key>, chd: seq<nat>, pages: seq<Page>,
                    tips: seq<Tip>, any: Leaf)
    returns (m': Mem)
    requires Stands(m, n, seps, chd, pages, tips) && k !in TableOf(n, tips) && k != INVALID
    requires !tips[ChildIdx(seps, k)].page.Full()
    ensures var i := ChildIdx(seps, k);
      Reaches(Spot(InsertLeaf(n, k, v, |seps|, i, chd[i]), m), Spot(Done(0), m'))
    ensures Holds(m', n, any) && TableIn(m', n, any) == TableOf(n, tips)[k := v]
  {
    var i := ChildIdx(seps, k);
    var l := chd[i];
    assert Shows(m, n, l, pages[l]) && tips[i].page == pages[l];
    var full := if |seps| >= n then Done(NO_ROOM) else SplitLeaf(n, l, |seps| + 1, k, v, TakeUp(n, |seps|, i));
    m' := AddOk(n, l, k, v, full, Done(0), m, pages[l]);
    KeepStands(m, m', n, k, v, seps, chd, pages, tips, any);
  }

  /** And when it splits. */
  lemma InsertSplits(m: Mem, n: Pos, k: Key, v: Value, seps: seq<Key>, chd: seq<nat>, pages: seq<Page>,
                     tips: seq<Tip>, any: Leaf)
    returns (m': Mem)
    requires Stands(m, n, seps, chd, pages, tips) && k !in TableOf(n, tips) && k != INVALID && |seps| < n
    requires tips[ChildIdx(seps, k)].page.Full()
    ensures var i := ChildIdx(seps, k);
      Reaches(Spot(InsertLeaf(n, k, v, |seps|, i, chd[i]), m), Spot(Done(1), m'))
    ensures Holds(m', n, any) && TableIn(m', n, any) == TableOf(n, tips)[k := v]
  {
    var i := ChildIdx(seps, k);
    var cand := Tip(any, pages[|chd|]);
    assert tips[i].page == pages[chd[i]] && Shows(m, n, chd[i], pages[chd[i]]);
    assert Shows(m, n, |chd|, pages[|chd|]) && pages[|chd|].Blank(n);
    var l, r := SplitFacts(n, seps, tips, k, v, cand);
    var m1;
    m1, m' := SplitRuns(m, n, k, v, i, seps, chd, tips[i].page, cand, l.page, r.page);
    SplitHolds(m, m1, m', n, i, seps, chd, pages, tips, l, r, any);
  }

  /** The two leaves, and what they make of the node. */
  lemma SplitFacts(n: Pos, seps: seq<Key>, tips: seq<Tip>, k: Key, v: Value, cand: Tip) returns (l: Tip, r: Tip)
    requires Sound(n, seps, tips) && k !in TableOf(n, tips) && k != INVALID && cand.page.Blank(n) && |seps| < n
    requires tips[ChildIdx(seps, k)].page.Full()
    ensures |r.page.keys| == n
    ensures var x := LeafInsert(tips[ChildIdx(seps, k)].page, cand.leaf, cand.page, k, v);
      x.left == l.page && x.right == r.page
    ensures var i := ChildIdx(seps, k);
      var tips' := Inserted(tips[i := l], i + 1, r);
      Sound(n, Inserted(seps, i, r.page.keys[0]), tips') && TableOf(n, tips') == TableOf(n, tips)[k := v]
  {
    LeafSplits(n, seps, tips, k, v, cand);
    var s := LeafStep(tips[ChildIdx(seps, k)], k, v, cand);
    l, r := s[0], s[1];
  }

  lemma SplitHolds(m: Mem, m1: Mem, m': Mem, n: Pos, i: nat, seps: seq<Key>, chd: seq<nat>, pages: seq<Page>,
                   tips: seq<Tip>, l: Tip, r: Tip, any: Leaf)
    requires Stands(m, n, seps, chd, pages, tips) && |seps| < n && |r.page.keys| > 0
    requires Splitting(m, m1, m', n, i, r.page.keys[0], seps, chd, l.page, r.page)
    requires Sound(n, Inserted(seps, i, r.page.keys[0]), Inserted(tips[i := l], i + 1, r))
    ensures Holds(m', n, any) && TableIn(m', n, any) == TableOf(n, Inserted(tips[i := l], i + 1, r))
  {
    SplitStands(m, m1, m', n, i, seps, chd, pages, tips, l, r);
    StandsHolds(m', n, Inserted(seps, i, r.page.keys[0]), Inserted(chd, i + 1, |chd|),
                pages[chd[i] := l.page][|chd| := r.page], Inserted(tips[i := l], i + 1, r), any);
  }

  /** The program of a split, from the leaf on. */
  lemma SplitRuns(m: Mem, n: Pos, k: Key, v: Value, i: nat, seps: seq<Key>, chd: seq<nat>, p: Page, cand: Tip,
                  left: Page, right: Page)
    returns (m1: Mem, m': Mem)
    requires ShowsNode(m, n, seps, chd) && i <= |seps| < n && chd[i] != |chd| && p.Full()
    requires Shows(m, n, chd[i], p) && Shows(m, n, |chd|, cand.page) && |right.keys| > 0
    requires var r := LeafInsert(p, cand.leaf, cand.page, k, v); r.left == left && r.right == right
    ensures Reaches(Spot(InsertLeaf(n, k, v, |seps|, i, chd[i]), m), Spot(Done(1), m'))
    ensures Splitting(m, m1, m', n, i, right.keys[0], seps, chd, left, right)
  {
    var l, c := chd[i], |chd|;
    var take := TakeUp(n, |seps|, i);
    var split := SplitLeaf(n, l, c, k, v, take);
    AddFull(n, l, k, v, split, Done(0), m, p);
    m1 := SplitOk(n, l, c, k, v, take, m, p, cand.page, cand.leaf);
    OnlyNode(m, m1, n, l, c, seps, chd);
    m' := TakeUpOk(m1, n, i, right, seps, chd);
    var start := Spot(InsertLeaf(n, k, v, |seps|, i, l), m);
    ReachesOn(start, Spot(split, m), Spot(take, m1));
    ReachesOn(start, Spot(take, m1), Spot(Done(1), m'));
  }

  lemma TakeUpOk(m: Mem, n: Pos, i: nat, right: Page, seps: seq<Key>, chd: seq<nat>) returns (m': Mem)
    requires ShowsNode(m, n, seps, chd) && i <= |seps| && Shows(m, n, |chd|, right)
    ensures Reaches(Spot(TakeUp(n, |seps|, i), m), Spot(Done(1), m'))
    ensures ShowsNode(m', n, Inserted(seps, i, right.keys[0]), Inserted(chd, i + 1, |chd|)) && LeavesSame(m, m', n)
  {
    assert At(m, n, KeyAt(|chd|, 0)) == right.keys[0];
    m' := InsertSepOk(n, i, right.keys[0], |chd|, Done(1), m, seps, chd);
    ReachesNext(Spot(TakeUp(n, |seps|, i), m), Spot(Done(1), m'));
  }

  /** The way down to the leaf. */
  lemma InsertDescends(m: Mem, n: Pos, k: Key, v: Value, seps: seq<Key>, chd: seq<nat>, end: Spot)
    requires ShowsNode(m, n, seps, chd)
    requires Reaches(Spot(InsertLeaf(n, k, v, |seps|, ChildIdx(seps, k), chd[ChildIdx(seps, k)]), m), end)
    ensures Reaches(Spot(InsertProg(n, k, v), m), end)
  {
    var i := ChildIdx(seps, k);
    var cont := (i: nat) => InsertChild(n, k, v, |seps|, i);
    assert At(m, n, ChildAt(i)) == chd[i];
    ReachesNext(Spot(cont(i), m), end);
    FindChildOk(n, 0, k, cont, m, seps, chd);
    ReachesOn(Spot(FindChild(n, 0, |seps|, k, cont), m), Spot(cont(i), m), end);
    ReachesNext(Spot(InsertProg(n, k, v), m), end);
  }

  lemma InsertOk(m: Mem, n: Pos, k: Key, v: Value, any: Leaf) returns (m': Mem, r: int)
    requires Holds(m, n, any) && k !in TableIn(m, n, any) && k != INVALID && |TableIn(m, n, any)| < RoomIn(n)
    ensures Reaches(Spot(InsertProg(n, k, v), m), Spot(Done(r), m'))
    ensures Holds(m', n, any) && TableIn(m', n, any) == TableIn(m, n, any)[k := v]
  {
    m', r := InsertBelow(m, n, k, v, SepsIn(m, n), ChildrenIn(m, n), PagesIn(m, n), TipsIn(m, n, any), any);
    InsertDescends(m, n, k, v, SepsIn(m, n), ChildrenIn(m, n), Spot(Done(r), m'));
  }

  lemma InsertBelow(m: Mem, n: Pos, k: Key, v: Value, seps: seq<Key>, chd: seq<nat>, pages: seq<Page>,
                    tips: seq<Tip>, any: Leaf)
    returns (m': Mem, r: int)
    requires Stands(m, n, seps, chd, pages, tips) && k !in TableOf(n, tips) && k != INVALID
    requires |TableOf(n, tips)| < RoomIn(n)
    ensures var i := ChildIdx(seps, k);
      Reaches(Spot(InsertLeaf(n, k, v, |seps|, i, chd[i]), m), Spot(Done(r), m'))
    ensures Holds(m', n, any) && TableIn(m', n, any) == TableOf(n, tips)[k := v]
  {
    if tips[ChildIdx(seps, k)].page.Full() {
      NodeHasRoom(n, seps, tips, ChildIdx(seps, k));
      m' := InsertSplits(m, n, k, v, seps, chd, pages, tips, any);
      r := 1;
    } else {
      m' := InsertKeeps(m, n, k, v, seps, chd, pages, tips, any);
      r := 0;
    }
  }

  // ---------- what they implement ----------

  /** The table that the tree stands for; it has room for so many pairs. */
  ghost function NodeView(n: Pos, any: Leaf): View {
    View(m => Holds(m, n, any), m => TableIn(m, n, any), RoomIn(n))
  }

  lemma GetImplements(n: Pos, any: Leaf, k: Key, e: Entry)
    requires e.body == BodyOf(GetProg(n, k))
    ensures Implements(NodeView(n, any), e, GetOp(k))
  {
    var w := NodeView(n, any);
    forall m | w.inv(m) && Pre(GetOp(k), w.abs(m), w.room) && Returns(e, m)
      ensures LockElision.Done(w, m, Go(e.body, Conf(m, []), e.n).mem, GetOp(k), e.result)
    {
      var t := TableIn(m, n, any);
      GetOk(m, n, k, SepsIn(m, n), ChildrenIn(m, n), PagesIn(m, n), TipsIn(m, n, any));
      EntryEnds(e, GetProg(n, k), m, m, Found(if k in t then Some(t[k]) else None));
    }
  }

  lemma InsertImplements(n: Pos, any: Leaf, k: Key, v: Value, e: Entry)
    requires e.body == BodyOf(InsertProg(n, k, v))
    ensures Implements(NodeView(n, any), e, InsertOp(k, v))
  {
    var w := NodeView(n, any);
    forall m | w.inv(m) && Pre(InsertOp(k, v), w.abs(m), w.room) && Returns(e, m)
      ensures LockElision.Done(w, m, Go(e.body, Conf(m, []), e.n).mem, InsertOp(k, v), e.result)
    {
      var m', r := InsertOk(m, n, k, v, any);
      EntryEnds(e, InsertProg(n, k, v), m, m', r);
    }
  }

  // ---------- concurrently ----------

  function ProgOf(n: Pos, op: TreeOp): Prog {
    match op
    case GetOp(k) => GetProg(n, k)
    case InsertOp(k, v) => InsertProg(n, k, v)
  }

  /** Gets and inserts of absent keys on a tree with one inner node, from any
      threads, leaf splits and new separators included, behave as if run one after
      the other: while the lock is free the tree holds the initial pairs and those
      inserted, and every get has returned what was stored when it committed. */
  lemma NodeLinearizes(n: Pos, any: Leaf, ss: seq<System>, k: nat, ops: seq<TreeOp>)
    requires LockElision.Run(ss) && k < |ss| && Holds(ss[0].mem, n, any)
    requires |ops| == |ss[k].log| && forall i :: 0 <= i < |ops| ==> ss[k].log[i].body == BodyOf(ProgOf(n, ops[i]))
    requires Orderly(TableIn(ss[0].mem, n, any), ops, RoomIn(n))
    ensures var t := TableIn(ss[0].mem, n, any);
      && (!ss[k].locked ==> Holds(ss[k].mem, n, any) && TableIn(ss[k].mem, n, any) == Outcome(t, ops, |ops|))
      && forall i {:trigger ops[i]} :: 0 <= i < |ops| ==> Answers(ops[i], Outcome(t, ops, i), ss[k].log[i].result)
  {
    var log := ss[k].log;
    forall i | 0 <= i < |log| ensures Implements(NodeView(n, any), log[i], ops[i]) {
      match ops[i]
      case GetOp(key) => GetImplements(n, any, key, log[i]);
      case InsertOp(key, v) => InsertImplements(n, any, key, v, log[i]);
    }
    ConcurrentTable(NodeView(n, any), ss, k, ops);
  }
}
