/** A batch of one-sided reads (batch_rw_op.hh): requests chained through next
    links, cut behind the last one for the time of a doorbell. */
module BatchOps {
  import opened Keys
  import opened XNode

  /** A read of the keys of the leaf at addr into slot of the local buffer.
      next is the position of the following request; None ends the chain. */
  datatype Op = Op(addr: nat, slot: nat, signaled: bool, next: Option<nat>)

  // The remote memory: the leaves by address.
  type Memory = map<nat, Page>

  /** The requests that hang together from position i on. */
  function Chain(ops: seq<Op>, i: nat): seq<Op>
    decreases |ops| - i
  {
    if i >= |ops| then []
    else [ops[i]] + match ops[i].next
                    case None => []
                    case Some(j) => if j > i then Chain(ops, j) else []
  }

  /** The buffer after the reads, done in order. */
  function Reads(mem: Memory, buf: seq<seq<Key>>, ops: seq<Op>): (r: seq<seq<Key>>)
    requires forall o :: o in ops ==> o.addr in mem && o.slot < |buf|
    ensures |r| == |buf|
    decreases |ops|
  {
    if ops == [] then buf else Reads(mem, buf[ops[0].slot := mem[ops[0].addr].keys], ops[1..])
  }

  /** Every request links to the next position and is unsignaled. */
  ghost predicate AllLinked(ops: seq<Op>) {
    forall i {:trigger ops[i]} :: 0 <= i < |ops| ==> ops[i].next == Some(i + 1) && !ops[i].signaled
  }

  /** The chain cut behind position c: its last request alone is signaled. */
  function CutAt(ops: seq<Op>, c: nat): seq<Op>
    requires c < |ops|
  {
    ops[c := ops[c].(next := None, signaled := true)]
  }

  /** What a doorbell posts: the requests up to the cut, in order. */
  lemma {:induction false} CutChain(ops: seq<Op>, c: nat, i: nat)
    requires AllLinked(ops) && i <= c < |ops|
    ensures Chain(CutAt(ops, c), i) == CutAt(ops, c)[i..c + 1]
    decreases c - i
  {
    if i < c {
      CutChain(ops, c, i + 1);
    }
  }

  /** Where requests target and what they fetch does not depend on the links. */
  lemma {:induction false} ReadsAlike(mem: Memory, buf: seq<seq<Key>>, a: seq<Op>, b: seq<Op>)
    requires |a| == |b| && forall i :: 0 <= i < |a| ==> a[i].addr == b[i].addr && a[i].slot == b[i].slot
    requires forall o :: o in a ==> o.addr in mem && o.slot < |buf|
    ensures forall o :: o in b ==> o.addr in mem && o.slot < |buf|
    ensures Reads(mem, buf, a) == Reads(mem, buf, b)
    decreases |a|
  {
    forall o | o in b ensures o.addr in mem && o.slot < |buf| {
      var i :| 0 <= i < |b| && b[i] == o;
      assert a[i] in a;
    }
    if a != [] {
      ReadsAlike(mem, buf[a[0].slot := mem[a[0].addr].keys], a[1..], b[1..]);
    }
  }

  /** What is posted reads just as the collected requests. */
  lemma PostedReads(mem: Memory, buf: seq<seq<Key>>, all: seq<Op>, c: nat)
    requires AllLinked(all) && c < |all|
    requires forall o :: o in all[..c + 1] ==> o.addr in mem && o.slot < |buf|
    ensures var posted := Chain(CutAt(all, c), 0);
      && |posted| == c + 1
      && (forall i :: 0 <= i <= c ==> posted[i].signaled == (i == c) && posted[i].addr == all[i].addr)
      && (forall o :: o in posted ==> o.addr in mem && o.slot < |buf|)
      && Reads(mem, buf, posted) == Reads(mem, buf, all[..c + 1])
  {
    CutChain(all, c, 0);
    ReadsAlike(mem, buf, all[..c + 1], Chain(CutAt(all, c), 0));
  }

  class BatchOp {
    const n: nat
    const ops: array<Op>
    var curIdx: int

    constructor (n: nat)
      requires n > 0
      ensures Valid() && this.n == n && curIdx == -1 && fresh(ops)
    {
      this.n := n;
      ops := new Op[n](i requires 0 <= i => Op(0, 0, false, Some(i + 1)));
      curIdx := -1;
    }

    ghost predicate Valid()
      reads this, ops
    {
      ops.Length == n > 0 && -1 <= curIdx < n && AllLinked(ops[..])
    }

    /** The requests collected so far. */
    ghost function Pending(): seq<Op>
      reads this, ops
      requires Valid()
    {
      ops[..curIdx + 1]
    }

    /** Add a read of the leaf at addr into slot. */
    method Emplace(addr: nat, slot: nat)
      requires Valid() && curIdx + 1 < n
      modifies this, ops
      ensures Valid() && curIdx == old(curIdx) + 1
      ensures Pending() == old(Pending()) + [Op(addr, slot, false, Some(curIdx + 1))]
    {
      curIdx := curIdx + 1;
      ops[curIdx] := ops[curIdx].(addr := addr, slot := slot);
      assert ops[..] == old(ops[..])[curIdx := ops[curIdx]];
      assert ops[..curIdx] == old(ops[..curIdx + 1]);
    }

    /** Ring the doorbell: exactly the collected requests are carried out, in
        order, only the last of them signaled; the batch is empty afterwards and
        its links and flags are as before. */
    method ExecuteAsync(mem: Memory, buf: array<seq<Key>>) returns (ghost posted: seq<Op>)
      requires Valid()
      requires forall o :: o in Pending() ==> o.addr in mem && o.slot < buf.Length
      modifies this`curIdx, ops, buf
      ensures Valid() && curIdx == -1 && ops[..] == old(ops[..])
      ensures buf[..] == Reads(mem, old(buf[..]), old(Pending()))
      ensures old(curIdx) >= 0 ==>
        && |posted| == old(curIdx) + 1
        && (forall i :: 0 <= i < |posted| ==>
            posted[i].signaled == (i == old(curIdx)) && posted[i].addr == old(Pending())[i].addr)
    {
      posted := [];
      if curIdx < 0 {
        return;
      }
      ghost var all := ops[..];
      var cur := curIdx;
      var flag := ops[cur].signaled;
      ops[cur] := ops[cur].(signaled := true);
      ops[cur] := ops[cur].(next := None);
      assert ops[..] == CutAt(all, cur);
      posted := Chain(ops[..], 0);
      PostedReads(mem, buf[..], all, cur);
      Post(ops[..], mem, buf);
      ops[cur] := ops[cur].(next := Some(cur + 1));
      ops[cur] := ops[cur].(signaled := flag);
      assert ops[..] == all;
      curIdx := -1;
    }

    /** The card follows the chain from the first request. */
    static method Post(all: seq<Op>, mem: Memory, buf: array<seq<Key>>)
      requires forall o :: o in Chain(all, 0) ==> o.addr in mem && o.slot < buf.Length
      modifies buf
      ensures buf[..] == Reads(mem, old(buf[..]), Chain(all, 0))
    {
      var i := 0;
      var more := |all| > 0;
      while more
        invariant more ==> i < |all|
        invariant forall o :: o in (if more then Chain(all, i) else []) ==> o.addr in mem && o.slot < buf.Length
        invariant Reads(mem, old(buf[..]), Chain(all, 0)) == Reads(mem, buf[..], if more then Chain(all, i) else [])
        decreases if more then |all| - i else -1
      {
        ghost var rest, was := Chain(all, i), buf[..];
        assert all[i] == rest[0] && all[i] in rest;
        buf[all[i].slot] := mem[all[i].addr].keys;
        assert buf[..] == was[rest[0].slot := mem[rest[0].addr].keys];
        if all[i].next.Some? && i < all[i].next.value < |all| {
          i := all[i].next.value;
        } else {
          more := false;
        }
        assert rest[1..] == if more then Chain(all, i) else [];
      }
    }
  }
}
