/** Operations written as programs over memory cells, for LockElision: running a
    program alone, and that its body does just that. */
module Programs {
  import opened LockElision

  /** Return a result, or load or store a cell and go on. */
  datatype Prog =
    | Done(result: int)
    | LoadCell(a: nat, next: int -> Prog)
    | StoreCell(a: nat, v: int, rest: Prog)

  /** What is left of p once its accesses have yielded h. */
  function Left(p: Prog, h: seq<int>): Prog
    decreases |h|
  {
    if h == [] then p
    else
      match p
      case Done(_) => p
      case LoadCell(_, next) => Left(next(h[0]), h[1..])
      case StoreCell(_, _, rest) => Left(rest, h[1..])
  }

  function NextAction(p: Prog): Action {
    match p
    case Done(r) => Return(r)
    case LoadCell(a, _) => Read(a)
    case StoreCell(a, v, _) => Write(a, v)
  }

  /** The program as an operation. */
  function BodyOf(p: Prog): Body {
    h => NextAction(Left(p, h))
  }

  lemma LeftDone(p: Prog, h: seq<int>)
    requires p.Done?
    ensures Left(p, h) == p
  {}

  lemma {:induction false} LeftMore(p: Prog, h: seq<int>, x: int)
    ensures Left(p, h + [x]) == Left(Left(p, h), [x])
    decreases |h|
  {
    if h == [] {
      assert h + [x] == [x];
    } else {
      assert (h + [x])[0] == h[0] && (h + [x])[1..] == h[1..] + [x];
      match p
      case Done(_) => LeftDone(p, h + [x]); LeftDone(p, h);
      case LoadCell(_, next) => LeftMore(next(h[0]), h[1..], x);
      case StoreCell(_, _, rest) => LeftMore(rest, h[1..], x);
    }
  }

  // ---------- running a program alone ----------

  /** A program about to run in a memory. */
  datatype Spot = Spot(prog: Prog, mem: Mem)

  function Tick(s: Spot): Spot {
    match s.prog
    case Done(_) => s
    case LoadCell(a, next) => Spot(next(Get(s.mem, a)), s.mem)
    case StoreCell(a, v, rest) => Spot(rest, s.mem[a := v])
  }

  function Ticks(s: Spot, t: nat): Spot {
    if t == 0 then s else Tick(Ticks(s, t - 1))
  }

  /** From s the program gets to s'. */
  ghost predicate Reaches(s: Spot, s': Spot) {
    exists t: nat :: Ticks(s, t) == s'
  }

  lemma {:induction false} TicksAdd(s: Spot, t: nat, u: nat)
    ensures Ticks(Ticks(s, t), u) == Ticks(s, t + u)
  {
    if u > 0 {
      TicksAdd(s, t, u - 1);
    }
  }

  lemma ReachesItself(s: Spot)
    ensures Reaches(s, s)
  {
    assert Ticks(s, 0) == s;
  }

  lemma ReachesOn(a: Spot, b: Spot, c: Spot)
    requires Reaches(a, b) && Reaches(b, c)
    ensures Reaches(a, c)
  {
    var t: nat :| Ticks(a, t) == b;
    var u: nat :| Ticks(b, u) == c;
    TicksAdd(a, t, u);
  }

  /** One access, then the way to s. */
  lemma ReachesNext(a: Spot, s: Spot)
    requires Reaches(Tick(a), s)
    ensures Reaches(a, s)
  {
    assert Ticks(a, 0) == a && Ticks(a, 1) == Tick(a);
    ReachesOn(a, Tick(a), s);
  }

  /** The body does what the program does. */
  lemma {:induction false} GoTicks(p: Prog, m: Mem, t: nat)
    ensures var c := Go(BodyOf(p), Conf(m, []), t);
      Ticks(Spot(p, m), t) == Spot(Left(p, c.hist), c.mem)
  {
    if t > 0 {
      GoTicks(p, m, t - 1);
      var c := Go(BodyOf(p), Conf(m, []), t - 1);
      match Left(p, c.hist)
      case Done(_) =>
      case LoadCell(a, _) => LeftMore(p, c.hist, Get(c.mem, a));
      case StoreCell(_, _, _) => LeftMore(p, c.hist, 0);
    }
  }

  lemma {:induction false} TicksDone(s: Spot, t: nat)
    requires s.prog.Done?
    ensures Ticks(s, t) == s
  {
    if t > 0 {
      TicksDone(s, t - 1);
    }
  }

  /** A program ends in one way only. */
  lemma EndsOnce(s: Spot, t: nat, u: nat)
    requires Ticks(s, t).prog.Done? && Ticks(s, u).prog.Done?
    ensures Ticks(s, t) == Ticks(s, u)
  {
    if t <= u {
      TicksAdd(s, t, u - t);
      TicksDone(Ticks(s, t), u - t);
    } else {
      TicksAdd(s, u, t - u);
      TicksDone(Ticks(s, u), t - u);
    }
  }

  /** An entry of the log whose body is a program that ends in m' with result r
      has left m' and returned r. */
  lemma EntryEnds(e: Entry, p: Prog, m: Mem, m': Mem, r: int)
    requires e.body == BodyOf(p) && Returns(e, m) && Reaches(Spot(p, m), Spot(Done(r), m'))
    ensures Go(e.body, Conf(m, []), e.n).mem == m' && e.result == r
  {
    var t: nat :| Ticks(Spot(p, m), t) == Spot(Done(r), m');
    GoTicks(p, m, e.n);
    EndsOnce(Spot(p, m), t, e.n);
  }
}
