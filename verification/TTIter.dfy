/** Labels and the translation table: logical addresses (logic_addr.hh), tagged
    table entries (translation_table.hh) and the iterator that fills the table
    while it walks the leaves (page_tt_iter.hh). */
module TTIter {
  import opened Keys
  import opened XNode
  import opened BTree
  import opened LeafChain
  import opened Store
  import opened TreeInner
  import opened XTree
  import opened TreeIter

  // ---------- logical addresses ----------

  function Encode(n: nat, id: nat, off: nat): nat {
    id * n + off
  }

  function PageId(n: nat, logic: nat): nat
    requires n > 0
  {
    logic / n
  }

  function Offset(n: nat, logic: nat): nat
    requires n > 0
  {
    logic % n
  }

  /** A logical address decodes to its page and its offset. */
  lemma LogicRoundTrip(n: nat, id: nat, off: nat)
    requires off < n
    ensures PageId(n, Encode(n, id, off)) == id && Offset(n, Encode(n, id, off)) == off
    ensures Encode(n, id, off) / n == id && Encode(n, id, off) % n == off
  {
    var x := Encode(n, id, off);
    assert x == (x / n) * n + x % n;
    if x / n < id {
      Scale(x / n + 1, id, n);
    } else if x / n > id {
      Scale(id + 1, x / n, n);
    }
  }

  lemma Scale(a: nat, b: nat, n: nat)
    requires a <= b
    ensures a * n <= b * n
  {}

  /** Logical addresses are ordered by page, then by offset. */
  lemma LogicOrder(n: nat, a: nat, s: nat, b: nat, t: nat)
    requires s < n && t < n
    ensures Encode(n, a, s) < Encode(n, b, t) <==> a < b || (a == b && s < t)
  {
    if a < b {
      Scale(a + 1, b, n);
    } else if b < a {
      Scale(b + 1, a, n);
    }
  }

  // ---------- table entries ----------

  // addresses below this survive the shift by 8
  const ADDR_LIMIT := 0x100_0000_0000_0000

  /** An address shifted left by 8 in 64 bits. */
  function Shifted(addr: nat): nat {
    addr * 256 % U64
  }

  /** What add_w_incar asserts: the shift lost nothing. */
  predicate Fits(addr: nat) {
    Shifted(addr) / 256 == addr
  }

  /** The assertion holds of exactly the 56-bit addresses. */
  lemma FitsIff(addr: nat)
    ensures Fits(addr) <==> addr < ADDR_LIMIT
  {}

  /** The entry for a leaf at addr: the shifted address, its low 8 bits replaced
      by those of the incarnation. */
  function Entry(addr: nat, incar: nat): nat {
    Shifted(addr) + incar % 256
  }

  function AddrOf(entry: nat): nat { entry / 256 }

  function TagIn(entry: nat): nat { entry % 256 }

  /** An entry gives back the address and the low 8 bits of the incarnation. */
  lemma EntryRoundTrip(addr: nat, incar: nat)
    requires Fits(addr)
    ensures Entry(addr, incar) < U64
    ensures AddrOf(Entry(addr, incar)) == addr && TagIn(Entry(addr, incar)) == incar % 256
    ensures Entry(addr, incar) / 256 == addr && Entry(addr, incar) % 256 == incar % 256
  {
    FitsIff(addr);
  }

  class TT {
    var entries: seq<nat>

    constructor ()
      ensures entries == []
    {
      entries := [];
    }

    method AddWIncar(addr: nat, incar: nat)
      requires Fits(addr)
      modifies this
      ensures entries == old(entries) + [Entry(addr, incar)]
    {
      var temp := Shifted(addr);
      temp := temp + incar % 256;
      entries := entries + [temp];
    }

    method GetWoIncar(i: nat) returns (addr: nat)
      requires i < |entries|
      ensures addr == AddrOf(entries[i])
    {
      addr := entries[i] / 256;
    }
  }

  /** The entries of leaves a to b of the chain. */
  function Run(tips: seq<Tip>, a: nat, b: nat): (r: seq<nat>)
    requires a <= b <= |tips|
    ensures |r| == b - a
    ensures forall i :: 0 <= i < b - a ==> r[i] == Entry(tips[a + i].leaf.addr, tips[a + i].page.incar)
  {
    seq<nat>(b - a, i requires 0 <= i < b - a => Entry(tips[a + i].leaf.addr, tips[a + i].page.incar))
  }

  lemma RunMore(tips: seq<Tip>, a: nat, b: nat)
    requires a <= b < |tips|
    ensures Run(tips, a, b + 1) == Run(tips, a, b) + [Entry(tips[b].leaf.addr, tips[b].page.incar)]
  {}

  /** Every leaf's address fits into an entry. */
  ghost predicate Addressable(tips: seq<Tip>) {
    forall i {:trigger Fits(tips[i].leaf.addr)} :: 0 <= i < |tips| ==> Fits(tips[i].leaf.addr)
  }

  /** The logic of an item when the walk started at page start. */
  function LabelOf(n: nat, start: nat, x: Item): nat
    requires start <= x.page
  {
    Encode(n, x.page - start, x.slot)
  }

  // ---------- the iterator ----------

  class TTIter {
    const core: LeafCursor
    const tt: TT
    var prevNode: Leaf?
    var logicPageId: nat
    // the table before the walk, and the page the walk started at
    ghost var base: seq<nat>
    ghost var start: nat

    /** Nothing is recorded before a seek. */
    constructor (kv: XTree, tt: TT)
      requires kv.Valid() && kv.root != Null && tt !in kv.repr
      ensures this.tt == tt && core.n == kv.n && core.sorted && fresh(core)
    {
      this.tt := tt;
      core := new LeafCursor(kv, true);
      prevNode := null;
      logicPageId := 0;
    }

    /** A walk over distinct, addressable leaves. */
    ghost predicate Walking()
      reads this, core, core.fp
    {
      && core.Valid() && core.sorted && this !in core.fp && tt !in core.fp
      && Separate(core.tips) && Addressable(core.tips)
    }

    /** The table holds the leaves from start to seen, and prevNode is the last
        of them. */
    ghost predicate Recorded(seen: nat)
      reads this, core, tt
    {
      && start <= seen <= |core.tips|
      && logicPageId == seen - start
      && prevNode == (if seen == start then null else core.tips[seen - 1].leaf)
      && tt.entries == base + Run(core.tips, start, seen)
    }

    ghost function Seen(): nat
      reads this, core
    {
      if core.pos < |core.tips| then core.pos + 1 else core.pos
    }

    ghost predicate Valid()
      reads this, core, core.fp, tt
    {
      Walking() && Recorded(Seen()) && start < Seen()
    }

    /** Record the current leaf if it is a new one. */
    method ResetOldPtr(ghost seen: nat)
      requires Walking() && Recorded(seen) && (seen == core.pos || (seen == core.pos + 1 && seen > start))
      requires start < Seen()
      modifies this`prevNode, this`logicPageId, tt
      ensures Valid()
    {
      if core.curNode.Some? {
        core.OnLeaf();
        SameLeaf(core.tips, core.pos, seen - 1);
        if core.curNodePtr != prevNode {
          RunMore(core.tips, start, core.pos);
          tt.AddWIncar(core.curNodePtr.addr, core.curNodePtr.incar);
          prevNode := core.curNodePtr;
          logicPageId := logicPageId + 1;
        }
      }
    }

    method Next()
      requires Valid() && core.curNode.Some?
      modifies this`prevNode, this`logicPageId, core, tt
      ensures Valid() && old(core.Rest()) != [] && core.Rest() == old(core.Rest())[1..]
      ensures core.tips == old(core.tips) && core.fp == old(core.fp) && Seen() >= old(Seen())
    {
      ghost var seen := Seen();
      core.Next();
      ResetOldPtr(seen);
    }

    method Seek(k: Key, kv: XTree, ghost s: State)
      requires kv.Valid() && kv.root != Null && kv.n == core.n && core.sorted
      requires kv.state == s && WellFormed(s, core.n) && s.root.Some?
      requires this !in kv.repr && core !in kv.repr && tt !in kv.repr && Addressable(StoreTips(s))
      modifies this, core, tt
      ensures Valid() && core.tips == StoreTips(s) && core.fp == kv.repr
      ensures start == LeafPos(s.root.value, core.n, s.depth, k)
      ensures core.Rest() == ItemsFrom(core.tips, true, start) && core.Rest() != []
      ensures base == old(tt.entries)
    {
      logicPageId := 0;
      prevNode := null;
      core.Seek(k, kv, s);
      Begin();
    }

    /** The walk starts at the current leaf. */
    method Begin()
      requires Walking() && core.pos < |core.tips| && logicPageId == 0 && prevNode == null
      modifies this`prevNode, this`logicPageId, this`base, this`start, tt
      ensures Valid() && start == core.pos && base == old(tt.entries)
    {
      base, start := tt.entries, core.pos;
      ResetOldPtr(start);
    }

    /** The label of the current key. */
    method OpaqueVal() returns (logic: nat)
      requires Valid() && core.curNode.Some?
      ensures core.Rest() != [] && start <= core.Rest()[0].page
      ensures logic == LabelOf(core.n, start, core.Rest()[0]) && PageId(core.n, logic) < Seen() - start
    {
      core.OnLeaf();
      logic := Encode(core.n, logicPageId - 1, core.idx);
      LogicRoundTrip(core.n, logicPageId - 1, core.idx);
    }
  }

  lemma SameLeaf(tips: seq<Tip>, i: nat, j: int)
    requires Separate(tips) && i < |tips| && -1 <= j < |tips|
    ensures j >= 0 ==> (tips[i].leaf == tips[j].leaf <==> i == j)
  {
    assert 0 <= j < i ==> Differ(tips[j], tips[i]);
    assert i < j ==> Differ(tips[i], tips[j]);
  }
}
