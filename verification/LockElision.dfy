/** Lock elision (rtm.hh, spin_lock.hh, xtree_con.hh) as a step system.

    Threads run operations on a shared memory.  An operation first runs as a
    hardware transaction that has read the fallback lock; after too many aborts
    it runs under the lock.  What is assumed of the hardware: a transaction's
    writes become visible at once when it commits; a transaction is aborted when
    another thread's visible write hits something it has read or written; and it
    may be aborted at any other time, with any status. */
module LockElision {
  import opened Keys

  // ---------- sequential operations ----------

  type Mem = map<nat, int>

  datatype Action = Read(a: nat) | Write(a: nat, v: int) | Return(v: int)

  /** An operation decides what to do next from what it has seen so far. */
  type Body = seq<int> -> Action

  datatype Conf = Conf(mem: Mem, hist: seq<int>)

  function Get(m: Mem, a: nat): int {
    if a in m then m[a] else 0
  }

  function One(b: Body, c: Conf): Conf {
    match b(c.hist)
    case Read(a) => Conf(c.mem, c.hist + [Get(c.mem, a)])
    case Write(a, v) => Conf(c.mem[a := v], c.hist + [0])
    case Return(_) => c
  }

  /** n steps of the operation, alone. */
  function Go(b: Body, c: Conf, n: nat): Conf {
    if n == 0 then c else One(b, Go(b, c, n - 1))
  }

  function Touch(act: Action): set<nat> {
    match act
    case Read(a) => {a}
    case Write(a, _) => {a}
    case Return(_) => {}
  }

  /** What those steps read or write. */
  function Touched(b: Body, c: Conf, n: nat): set<nat> {
    if n == 0 then {} else Touched(b, c, n - 1) + Touch(b(Go(b, c, n - 1).hist))
  }

  /** Writes elsewhere make no difference. */
  lemma {:induction false} GoElsewhere(b: Body, c: Conf, w: Mem, n: nat)
    requires w.Keys !! Touched(b, c, n)
    ensures Go(b, Conf(c.mem + w, c.hist), n) == Conf(Go(b, c, n).mem + w, Go(b, c, n).hist)
    ensures Touched(b, Conf(c.mem + w, c.hist), n) == Touched(b, c, n)
  {
    if n > 0 {
      GoElsewhere(b, c, w, n - 1);
      var d := Go(b, c, n - 1);
      match b(d.hist)
      case Read(a) => assert Get(d.mem + w, a) == Get(d.mem, a);
      case Write(a, v) => assert (d.mem + w)[a := v] == d.mem[a := v] + w;
      case Return(_) =>
    }
  }

  // ---------- threads ----------

  /** The bits of the status that an abort leaves. */
  datatype Status = Status(explicitly: bool, retry: bool, conflict: bool, capacity: bool, debug: bool, nested: bool,
                           code: nat)

  const MAX_NESTED := 0
  const MAX_ZERO := 0
  const MAX_CAPACITY := 1
  const MAX_CONFLICT := 10
  const MAGIC_ABORT := 0x73
  const LOCK_BUSY := 0xff

  datatype Counts = Counts(retry: nat, conflict: nat, capacity: nat, nested: nat, zero: nat)

  const NO_ABORTS := Counts(0, 0, 0, 0, 0)

  /** Started: in a transaction that has not read the lock yet.
      Running: in a transaction, after n steps of its operation; its writes are
      buffered.  Holding: in the fallback section. */
  datatype Phase =
    | Outside
    | Trying
    | Started
    | Running(hist: seq<int>, buffer: Mem, touched: set<nat>, n: nat)
    | Aborted(status: Status)
    | Pausing
    | Locking
    | Holding(hist: seq<int>, n: nat)

  datatype Thread = Thread(phase: Phase, body: Body, counts: Counts)

  /** A finished operation: its body, how many steps it took, its result. */
  datatype Entry = Entry(thread: nat, body: Body, n: nat, result: int)

  /** committed and log are not part of the machine: the memory that the finished
      operations have left, and those operations in order. */
  datatype System = System(mem: Mem, locked: bool, threads: seq<Thread>, committed: Mem, log: seq<Entry>)

  datatype Step =
    | Call(body: Body)
    | Begin
    | TestLock
    | Work
    | Commit
    | Fail(status: Status)
    | Recover
    | Wait
    | Acquire
    | Unlock

  // The whole status word is zero.
  const NO_REASON := Status(false, false, false, false, false, false, 0)

  function Counted(c: Counts, s: Status): Counts {
    var d := c.(retry := c.retry + 1);
    if s.nested then d.(nested := d.nested + 1)
    else if s == NO_REASON then d.(zero := d.zero + 1)
    else if s.conflict then d.(conflict := d.conflict + 1)
    else if s.capacity then d.(capacity := d.capacity + 1)
    else d
  }

  /** Too many aborts of one kind: take the lock. */
  predicate GivesUp(c: Counts) {
    c.nested > MAX_NESTED || c.zero > MAX_ZERO || c.capacity > MAX_CAPACITY || c.conflict > MAX_CONFLICT
  }

  predicate Pauses(s: Status) {
    s.explicitly && s.code == MAGIC_ABORT
  }

  const CONFLICT := Status(false, true, true, false, false, false, 0)
  const BUSY := Status(true, false, false, false, false, false, LOCK_BUSY)

  /** A visible write to the addresses in w aborts every transaction that has
      touched one of them; a write to the lock aborts every one that has read
      it. */
  function Hit(t: Thread, w: set<nat>, lock: bool): Thread {
    if t.phase.Running? && (lock || !(w !! t.phase.touched)) then t.(phase := Aborted(CONFLICT)) else t
  }

  function HitOthers(ts: seq<Thread>, me: nat, w: set<nat>, lock: bool): (r: seq<Thread>)
    ensures |r| == |ts|
    ensures forall i :: 0 <= i < |ts| ==> r[i] == if i == me then ts[i] else Hit(ts[i], w, lock)
  {
    seq(|ts|, i requires 0 <= i < |ts| => if i == me then ts[i] else Hit(ts[i], w, lock))
  }

  function With(s: System, i: nat, p: Phase): System
    requires i < |s.threads|
  {
    s.(threads := s.threads[i := s.threads[i].(phase := p)])
  }

  /** After an abort: count it, then pause, give up or try again. */
  function AfterAbort(t: Thread): Thread
    requires t.phase.Aborted?
  {
    var c := Counted(t.counts, t.phase.status);
    Thread(if Pauses(t.phase.status) then Pausing else if GivesUp(c) then Locking else Trying, t.body, c)
  }

  /** A step of thread i, if it can take it. */
  function Do(s: System, i: nat, step: Step): Option<System>
    requires i < |s.threads|
  {
    var t := s.threads[i];
    match (t.phase, step)
    case (Outside, Call(b)) => Some(s.(threads := s.threads[i := Thread(Trying, b, NO_ABORTS)]))
    case (Trying, Begin) => Some(With(s, i, Started))
    case (Started, TestLock) => Some(With(s, i, if s.locked then Aborted(BUSY) else Running([], map[], {}, 0)))
    case (Started, Fail(st)) => Some(With(s, i, Aborted(st)))
    case (Running(_, _, _, _), Fail(st)) => Some(With(s, i, Aborted(st)))
    case (Running(h, w, touched, n), Work) =>
      (match t.body(h)
       case Read(a) => Some(With(s, i, Running(h + [Get(s.mem + w, a)], w, touched + {a}, n + 1)))
       case Write(a, v) => Some(With(s, i, Running(h + [0], w[a := v], touched + {a}, n + 1)))
       case Return(_) => None)
    case (Running(h, w, touched, n), Commit) =>
      (match t.body(h)
       case Return(v) =>
         Some(System(s.mem + w, s.locked, HitOthers(s.threads, i, w.Keys, false)[i := t.(phase := Outside)],
                     s.mem + w, s.log + [Entry(i, t.body, n, v)]))
       case _ => None)
    case (Aborted(_), Recover) => Some(s.(threads := s.threads[i := AfterAbort(t)]))
    case (Pausing, Wait) =>
      if s.locked then None else Some(With(s, i, if GivesUp(t.counts) then Locking else Trying))
    case (Locking, Acquire) =>
      if s.locked then None
      else Some(s.(locked := true, threads := HitOthers(s.threads, i, {}, true)[i := t.(phase := Holding([], 0))]))
    case (Holding(h, n), Work) =>
      (match t.body(h)
       case Read(a) => Some(With(s, i, Holding(h + [Get(s.mem, a)], n + 1)))
       case Write(a, v) =>
         Some(s.(mem := s.mem[a := v],
                 threads := HitOthers(s.threads, i, {a}, false)[i := t.(phase := Holding(h + [0], n + 1))]))
       case Return(_) => None)
    case (Holding(h, n), Unlock) =>
      // the destructor only looks at whether the lock is taken
      (match t.body(h)
       case Return(v) =>
         Some(System(s.mem, false, HitOthers(s.threads, i, {}, s.locked)[i := t.(phase := Outside)], s.mem,
                     s.log + [Entry(i, t.body, n, v)]))
       case _ => None)
    case _ => None
  }

  /** The addresses that a step of a thread in that phase writes visibly. */
  function Visible(t: Thread, step: Step): set<nat> {
    match (t.phase, step)
    case (Running(_, buffer, _, _), Commit) => buffer.Keys
    case (Holding(h, _), Work) => if t.body(h).Write? then {t.body(h).a} else {}
    case _ => {}
  }

  /** What a step does to another thread: nothing, except that it aborts a
      transaction that has touched what the step writes visibly, and every
      transaction when the lock is taken or released. */
  lemma AbortsExactly(s: System, i: nat, step: Step, s': System, j: nat)
    requires i < |s.threads| && j < |s.threads| && i != j && Do(s, i, step) == Some(s')
    ensures |s'.threads| == |s.threads|
    ensures var t := s.threads[j];
      if t.phase.Running? && (s.locked != s'.locked || !(Visible(s.threads[i], step) !! t.phase.touched)) then
        s'.threads[j] == t.(phase := Aborted(Status(false, true, true, false, false, false, 0)))
      else s'.threads[j] == t
  {}

  ghost predicate Steps(s: System, t: System) {
    exists i, step :: 0 <= i < |s.threads| && Do(s, i, step) == Some(t)
  }

  ghost predicate Init(s: System) {
    && !s.locked && s.committed == s.mem && s.log == []
    && forall i :: 0 <= i < |s.threads| ==> s.threads[i].phase.Outside?
  }

  ghost predicate StepAt(ss: seq<System>, i: nat)
    requires i < |ss| - 1
  {
    Steps(ss[i], ss[i + 1])
  }

  ghost predicate Run(ss: seq<System>) {
    |ss| > 0 && Init(ss[0]) && forall i {:trigger StepAt(ss, i)} :: 0 <= i < |ss| - 1 ==> StepAt(ss, i)
  }

  // ---------- serial execution ----------

  /** The memory after the entries have run one after the other. */
  function Replay(m: Mem, log: seq<Entry>): Mem {
    if log == [] then m
    else
      var e := log[|log| - 1];
      Go(e.body, Conf(Replay(m, log[..|log| - 1]), []), e.n).mem
  }

  /** Run alone in memory m, e's operation returns e's result. */
  ghost predicate Returns(e: Entry, m: Mem) {
    e.body(Go(e.body, Conf(m, []), e.n).hist) == Return(e.result)
  }

  /** Every entry returned what it returns in a serial run. */
  ghost predicate Serial(m: Mem, log: seq<Entry>) {
    forall i {:trigger log[i]} :: 0 <= i < |log| ==> Returns(log[i], Replay(m, log[..i]))
  }

  lemma SerialMore(m: Mem, log: seq<Entry>, e: Entry)
    requires Serial(m, log) && Returns(e, Replay(m, log))
    ensures Serial(m, log + [e])
    ensures Replay(m, log + [e]) == Go(e.body, Conf(Replay(m, log), []), e.n).mem
  {
    var more := log + [e];
    assert more[..|log|] == log;
    forall i | 0 <= i < |more| ensures Returns(more[i], Replay(m, more[..i])) {
      assert i < |log| ==> more[..i] == log[..i] && more[i] == log[i];
    }
  }

  // ---------- what every step keeps ----------

  /** A thread's execution so far is one it could have had alone: a transaction's
      in the current memory, the lock holder's from the committed one. */
  ghost predicate ThreadOk(s: System, t: Thread) {
    match t.phase
    case Running(h, w, touched, n) =>
      && !s.locked
      && Go(t.body, Conf(s.mem, []), n) == Conf(s.mem + w, h)
      && touched == Touched(t.body, Conf(s.mem, []), n) && w.Keys <= touched
    case Holding(h, n) => s.locked && Go(t.body, Conf(s.committed, []), n) == Conf(s.mem, h)
    case _ => true
  }

  /** At most one thread holds the lock. */
  ghost predicate OneHolder(ts: seq<Thread>) {
    forall i, j {:trigger Both(ts[i], ts[j])} :: 0 <= i < j < |ts| ==> !Both(ts[i], ts[j])
  }

  predicate Both(a: Thread, b: Thread) {
    a.phase.Holding? && b.phase.Holding?
  }

  ghost predicate Held(ts: seq<Thread>) {
    exists i :: 0 <= i < |ts| && ts[i].phase.Holding?
  }

  ghost predicate Ok(m: Mem, s: System) {
    && LogOk(m, s) && (!s.locked ==> s.mem == s.committed)
    && (s.locked <==> Held(s.threads)) && OneHolder(s.threads) && AllOk(s)
  }

  ghost predicate AllOk(s: System) {
    forall i {:trigger ThreadOk(s, s.threads[i])} :: 0 <= i < |s.threads| ==> ThreadOk(s, s.threads[i])
  }

  /** The committed memory is that of a serial run of the log, with the same
      results. */
  ghost predicate LogOk(m: Mem, s: System) {
    Serial(m, s.log) && Replay(m, s.log) == s.committed
  }

  /** The threads after one has changed: no new holder. */
  lemma HoldersKept(ts: seq<Thread>, us: seq<Thread>, i: nat)
    requires i < |ts| == |us| && OneHolder(ts)
    requires forall j {:trigger us[j]} :: 0 <= j < |ts| && us[j].phase.Holding? ==> ts[j].phase.Holding?
    ensures OneHolder(us)
  {
    forall a, b | 0 <= a < b < |us| ensures !Both(us[a], us[b]) {
      assert !Both(ts[a], ts[b]);
    }
  }

  /** A step that only changes its own thread, and not whether it holds. */
  lemma QuietOk(m: Mem, s: System, i: nat, t: Thread)
    requires Ok(m, s) && i < |s.threads| && t.phase.Holding? == s.threads[i].phase.Holding?
    requires ThreadOk(s, t)
    ensures Ok(m, s.(threads := s.threads[i := t]))
  {
    var s' := s.(threads := s.threads[i := t]);
    HoldersKept(s.threads, s'.threads, i);
    forall j | 0 <= j < |s'.threads| ensures ThreadOk(s', s'.threads[j]) {
      assert ThreadOk(s, s.threads[j]);
      ThreadAlike(s, s', s'.threads[j]);
    }
    assert forall j :: 0 <= j < |s.threads| ==> s'.threads[j].phase.Holding? == s.threads[j].phase.Holding?;
  }

  lemma ThreadAlike(s: System, s': System, t: Thread)
    requires ThreadOk(s, t) && s'.mem == s.mem && s'.locked == s.locked && s'.committed == s.committed
    ensures ThreadOk(s', t)
  {}

  /** While the lock is free, nobody holds it. */
  lemma NobodyHolds(m: Mem, s: System, i: nat)
    requires Ok(m, s) && !s.locked && i < |s.threads|
    ensures !s.threads[i].phase.Holding?
  {}

  /** While the lock is held, no transaction that has read it is running. */
  lemma NobodyRuns(m: Mem, s: System, i: nat)
    requires Ok(m, s) && s.locked && i < |s.threads|
    ensures !s.threads[i].phase.Running?
  {
    assert ThreadOk(s, s.threads[i]);
  }

  lemma OnlyHolder(m: Mem, s: System, i: nat, j: nat)
    requires Ok(m, s) && i < |s.threads| && j < |s.threads| && i != j && s.threads[i].phase.Holding?
    ensures !s.threads[j].phase.Holding?
  {
    assert !Both(s.threads[Min(i, j)], s.threads[Max(i, j)]);
  }

  /** A transaction's step extends what it could have done alone. */
  lemma RunningWorks(s: System, t: Thread, a: nat)
    requires ThreadOk(s, t) && t.phase.Running? && t.body(t.phase.hist) == Read(a)
    ensures var p := t.phase;
      ThreadOk(s, t.(phase := Running(p.hist + [Get(s.mem + p.buffer, a)], p.buffer, p.touched + {a}, p.n + 1)))
  {}

  lemma RunningWrites(s: System, t: Thread, a: nat, v: int)
    requires ThreadOk(s, t) && t.phase.Running? && t.body(t.phase.hist) == Write(a, v)
    ensures var p := t.phase;
      ThreadOk(s, t.(phase := Running(p.hist + [0], p.buffer[a := v], p.touched + {a}, p.n + 1)))
  {
    assert (s.mem + t.phase.buffer)[a := v] == s.mem + t.phase.buffer[a := v];
  }

  /** A commit elsewhere leaves a transaction it does not hit as it was. */
  lemma CommitElsewhere(s: System, s': System, t: Thread, w: Mem)
    requires ThreadOk(s, t) && t.phase.Running? && w.Keys !! t.phase.touched
    requires s'.mem == s.mem + w && !s'.locked
    ensures ThreadOk(s', t)
  {
    var p := t.phase;
    GoElsewhere(t.body, Conf(s.mem, []), w, p.n);
    assert s.mem + p.buffer + w == s.mem + w + p.buffer;
  }

  lemma CommitLog(m: Mem, s: System, i: nat, s': System)
    requires LogOk(m, s) && s.mem == s.committed && i < |s.threads| && s.threads[i].phase.Running?
    requires ThreadOk(s, s.threads[i]) && Do(s, i, Commit) == Some(s')
    ensures LogOk(m, s') && s'.mem == s'.committed
  {
    SerialMore(m, s.log, s'.log[|s.log|]);
  }

  lemma CommitThreads(m: Mem, s: System, i: nat, s': System, j: nat)
    requires Ok(m, s) && i < |s.threads| && s.threads[i].phase.Running? && Do(s, i, Commit) == Some(s')
    requires j < |s.threads| && !s.locked
    ensures ThreadOk(s', s'.threads[j]) && !s'.threads[j].phase.Holding?
  {
    NobodyHolds(m, s, j);
    if j != i && s'.threads[j].phase.Running? {
      assert ThreadOk(s, s.threads[j]);
      CommitElsewhere(s, s', s.threads[j], s.threads[i].phase.buffer);
    }
  }

  lemma CommitOk(m: Mem, s: System, i: nat, s': System)
    requires Ok(m, s) && i < |s.threads| && s.threads[i].phase.Running? && Do(s, i, Commit) == Some(s')
    ensures Ok(m, s')
  {
    assert ThreadOk(s, s.threads[i]);
    CommitLog(m, s, i, s');
    forall j | 0 <= j < |s'.threads| ensures ThreadOk(s', s'.threads[j]) && !s'.threads[j].phase.Holding? {
      CommitThreads(m, s, i, s', j);
    }
  }

  lemma AcquireOk(m: Mem, s: System, i: nat, s': System)
    requires Ok(m, s) && i < |s.threads| && s.threads[i].phase.Locking? && Do(s, i, Acquire) == Some(s')
    ensures Ok(m, s')
  {
    forall j | 0 <= j < |s'.threads| ensures ThreadOk(s', s'.threads[j]) && (s'.threads[j].phase.Holding? ==> j == i) {
      NobodyHolds(m, s, j);
    }
    assert s'.threads[i].phase.Holding?;
  }

  lemma HoldingThreads(m: Mem, s: System, i: nat, s': System, j: nat)
    requires Ok(m, s) && i < |s.threads| && s.threads[i].phase.Holding? && Do(s, i, Work) == Some(s')
    requires j < |s.threads|
    ensures ThreadOk(s', s'.threads[j]) && (s'.threads[j].phase.Holding? <==> j == i)
  {
    assert ThreadOk(s, s.threads[i]);
    NobodyRuns(m, s, j);
    if j != i {
      OnlyHolder(m, s, i, j);
    }
  }

  lemma HoldingOk(m: Mem, s: System, i: nat, s': System)
    requires Ok(m, s) && i < |s.threads| && s.threads[i].phase.Holding? && Do(s, i, Work) == Some(s')
    ensures Ok(m, s')
  {
    forall j | 0 <= j < |s'.threads| ensures ThreadOk(s', s'.threads[j]) && (s'.threads[j].phase.Holding? <==> j == i) {
      HoldingThreads(m, s, i, s', j);
    }
    assert s'.threads[i].phase.Holding? && s'.log == s.log && s'.committed == s.committed && s'.locked;
  }

  lemma UnlockLog(m: Mem, s: System, i: nat, s': System)
    requires Ok(m, s) && i < |s.threads| && s.threads[i].phase.Holding? && Do(s, i, Unlock) == Some(s')
    ensures LogOk(m, s') && s'.mem == s'.committed && s.locked
  {
    assert ThreadOk(s, s.threads[i]);
    SerialMore(m, s.log, s'.log[|s.log|]);
  }

  lemma UnlockOk(m: Mem, s: System, i: nat, s': System)
    requires Ok(m, s) && i < |s.threads| && s.threads[i].phase.Holding? && Do(s, i, Unlock) == Some(s')
    ensures Ok(m, s')
  {
    UnlockLog(m, s, i, s');
    forall j | 0 <= j < |s'.threads|
      ensures !s'.threads[j].phase.Running? && !s'.threads[j].phase.Holding?
    {
      UnlockThread(m, s, i, s', j);
    }
    UnlockedOk(m, s');
  }

  lemma UnlockThread(m: Mem, s: System, i: nat, s': System, j: nat)
    requires Ok(m, s) && i < |s.threads| && s.threads[i].phase.Holding? && Do(s, i, Unlock) == Some(s')
    requires s.locked && j < |s'.threads|
    ensures |s'.threads| == |s.threads| && !s'.locked
    ensures !s'.threads[j].phase.Running? && !s'.threads[j].phase.Holding?
  {
    NobodyRuns(m, s, j);
    if j != i {
      OnlyHolder(m, s, i, j);
      AbortsExactly(s, i, Unlock, s', j);
    }
  }

  /** Nobody holds the lock, and nobody runs a transaction. */
  lemma UnlockedOk(m: Mem, s: System)
    requires LogOk(m, s) && s.mem == s.committed && !s.locked
    requires forall j :: 0 <= j < |s.threads| ==> !s.threads[j].phase.Running? && !s.threads[j].phase.Holding?
    ensures Ok(m, s)
  {}

  lemma RunningOk(m: Mem, s: System, i: nat, s': System)
    requires Ok(m, s) && i < |s.threads| && s.threads[i].phase.Running? && Do(s, i, Work) == Some(s')
    ensures Ok(m, s')
  {
    var t := s.threads[i];
    assert ThreadOk(s, t);
    match t.body(t.phase.hist) {
      case Read(a) => RunningWorks(s, t, a);
      case Write(a, v) => RunningWrites(s, t, a, v);
    }
    QuietOk(m, s, i, s'.threads[i]);
    assert s' == s.(threads := s.threads[i := s'.threads[i]]);
  }

  lemma OwnStepOk(m: Mem, s: System, i: nat, step: Step, s': System)
    requires Ok(m, s) && i < |s.threads| && Do(s, i, step) == Some(s')
    requires var p := s.threads[i].phase; !p.Holding? && !p.Locking? && (p.Running? ==> step.Fail?)
    ensures Ok(m, s')
  {
    assert s' == s.(threads := s.threads[i := s'.threads[i]]);
    QuietOk(m, s, i, s'.threads[i]);
  }

  lemma StepOk(m: Mem, s: System, i: nat, step: Step, s': System)
    requires Ok(m, s) && i < |s.threads| && Do(s, i, step) == Some(s')
    ensures Ok(m, s')
  {
    var p := s.threads[i].phase;
    if p.Running? && step.Commit? {
      CommitOk(m, s, i, s');
    } else if p.Running? && step.Work? {
      RunningOk(m, s, i, s');
    } else if p.Holding? && step.Work? {
      HoldingOk(m, s, i, s');
    } else if p.Holding? {
      UnlockOk(m, s, i, s');
    } else if p.Locking? {
      AcquireOk(m, s, i, s');
    } else {
      OwnStepOk(m, s, i, step, s');
    }
  }

  lemma StepsOk(m: Mem, s: System, s': System)
    requires Ok(m, s) && Steps(s, s')
    ensures Ok(m, s')
  {
    var i, step :| 0 <= i < |s.threads| && Do(s, i, step) == Some(s');
    StepOk(m, s, i, step, s');
  }

  lemma {:induction false} RunOk(ss: seq<System>, k: nat)
    requires Run(ss) && k < |ss|
    ensures Ok(ss[0].mem, ss[k])
  {
    if k > 0 {
      RunOk(ss, k - 1);
      assert StepAt(ss, k - 1);
      StepsOk(ss[0].mem, ss[k - 1], ss[k]);
    } else {
      assert Replay(ss[0].mem, []) == ss[0].mem;
    }
  }

  // ---------- the main results ----------

  /** Every run is serializable: the finished operations, in the order in which
      they committed, returned what they return when run one after the other,
      and while the lock is free the memory is what they leave. */
  lemma Serializable(ss: seq<System>, k: nat)
    requires Run(ss) && k < |ss|
    ensures Serial(ss[0].mem, ss[k].log)
    ensures !ss[k].locked ==> ss[k].mem == Replay(ss[0].mem, ss[k].log)
  {
    RunOk(ss, k);
  }

  /** No transaction commits while a thread is in the fallback section. */
  lemma NoCommitWhileHeld(ss: seq<System>, k: nat, i: nat, j: nat)
    requires Run(ss) && k < |ss| && i < |ss[k].threads| && j < |ss[k].threads|
    requires ss[k].threads[j].phase.Holding?
    ensures Do(ss[k], i, Commit) == None
  {
    RunOk(ss, k);
    assert ss[k].locked;
    NobodyRuns(ss[0].mem, ss[k], i);
  }

  /** The lock is released only by the one thread that holds it, although the
      destructor only looks at whether it is taken. */
  lemma OnlyHolderUnlocks(ss: seq<System>, k: nat, i: nat, step: Step)
    requires Run(ss) && k < |ss| && i < |ss[k].threads| && ss[k].locked
    requires Do(ss[k], i, step).Some? && !Do(ss[k], i, step).value.locked
    ensures ss[k].threads[i].phase.Holding?
    ensures forall j :: 0 <= j < |ss[k].threads| && j != i ==> !ss[k].threads[j].phase.Holding?
  {
    RunOk(ss, k);
    NobodyRuns(ss[0].mem, ss[k], i);
    forall j | 0 <= j < |ss[k].threads| && j != i ensures !ss[k].threads[j].phase.Holding? {
      OnlyHolder(ss[0].mem, ss[k], i, j);
    }
  }

  // ---------- get and insert ----------

  type Table = map<Key, Value>

  datatype TreeOp = GetOp(k: Key) | InsertOp(k: Key, v: Value)

  // The answer of a get that finds nothing.
  const MISSING := -1

  /** What callers guarantee: valid keys, and only absent keys are inserted, as
      long as there is room. */
  predicate Pre(op: TreeOp, t: Table, room: nat) {
    match op
    case GetOp(k) => k != INVALID
    case InsertOp(k, _) => k != INVALID && k !in t && |t| < room
  }

  function Apply(op: TreeOp, t: Table): Table {
    match op
    case GetOp(_) => t
    case InsertOp(k, v) => t[k := v]
  }

  /** A get answers with the stored value; an insert's answer says how leaves
      changed, which the table does not show. */
  predicate Answers(op: TreeOp, t: Table, result: int) {
    match op
    case GetOp(k) => result == if k in t then t[k] else MISSING
    case InsertOp(_, _) => true
  }

  /** How memory stands for a table: inv says of which memories it makes sense. */
  datatype View = View(inv: Mem -> bool, abs: Mem -> Table, room: nat)

  /** Alone in any memory that makes sense, and with what callers guarantee, the
      entry's operation does to the table what op says, answers accordingly, and
      leaves a memory that makes sense. */
  ghost predicate Implements(w: View, e: Entry, op: TreeOp) {
    forall m {:trigger Returns(e, m)} :: w.inv(m) && Pre(op, w.abs(m), w.room) && Returns(e, m) ==>
      Done(w, m, Go(e.body, Conf(m, []), e.n).mem, op, e.result)
  }

  ghost predicate Done(w: View, m: Mem, m': Mem, op: TreeOp, result: int) {
    w.inv(m') && w.abs(m') == Apply(op, w.abs(m)) && Answers(op, w.abs(m), result)
  }

  ghost predicate AllImplement(w: View, log: seq<Entry>, ops: seq<TreeOp>) {
    && |ops| == |log|
    && forall i {:trigger Implements(w, log[i], ops[i])} :: 0 <= i < |log| ==> Implements(w, log[i], ops[i])
  }

  /** The table after the first n of the operations. */
  function Outcome(t: Table, ops: seq<TreeOp>, n: nat): Table
    requires n <= |ops|
  {
    if n == 0 then t else Apply(ops[n - 1], Outcome(t, ops, n - 1))
  }

  /** How many of the first n operations are inserts. */
  function Inserts(ops: seq<TreeOp>, n: nat): nat
    requires n <= |ops|
  {
    if n == 0 then 0 else Inserts(ops, n - 1) + if ops[n - 1].InsertOp? then 1 else 0
  }

  lemma {:induction false} InsertsRise(ops: seq<TreeOp>, i: nat, n: nat)
    requires i <= n <= |ops|
    ensures Inserts(ops, i) <= Inserts(ops, n)
  {
    if i < n {
      InsertsRise(ops, i, n - 1);
    }
  }

  /** In whatever order the operations commit, callers keep their guarantees: keys
      are valid, inserted keys are new and differ, and there is room for all. */
  ghost predicate Orderly(t: Table, ops: seq<TreeOp>, room: nat) {
    && |t| + Inserts(ops, |ops|) <= room
    && (forall i {:trigger ops[i]} :: 0 <= i < |ops| ==> ops[i].k != INVALID && (ops[i].InsertOp? ==> ops[i].k !in t))
    && (forall i, j {:trigger ops[i], ops[j]} :: 0 <= i < j < |ops| && ops[i].InsertOp? && ops[j].InsertOp? ==>
        ops[i].k != ops[j].k)
  }

  lemma {:induction false} OutcomeKeys(t: Table, ops: seq<TreeOp>, n: nat, k: Key)
    requires n <= |ops|
    ensures k in Outcome(t, ops, n) ==> k in t || exists i :: 0 <= i < n && ops[i].InsertOp? && ops[i].k == k
    ensures |Outcome(t, ops, n)| <= |t| + Inserts(ops, n)
  {
    if n > 0 {
      OutcomeKeys(t, ops, n - 1, k);
      TableGrows(Outcome(t, ops, n - 1), ops[n - 1]);
    }
  }

  lemma TableGrows(t: Table, op: TreeOp)
    ensures |Apply(op, t)| <= |t| + if op.InsertOp? then 1 else 0
  {
    if op.InsertOp? {
      assert t[op.k := op.v].Keys == t.Keys + {op.k};
      assert |t[op.k := op.v]| == |t[op.k := op.v].Keys| && |t| == |t.Keys|;
    }
  }

  lemma OrderlyPre(t: Table, ops: seq<TreeOp>, room: nat, n: nat)
    requires Orderly(t, ops, room) && n < |ops|
    ensures Pre(ops[n], Outcome(t, ops, n), room)
  {
    OutcomeKeys(t, ops, n, ops[n].k);
    InsertsRise(ops, n + 1, |ops|);
  }

  lemma ReplayNext(m: Mem, log: seq<Entry>, n: nat)
    requires Serial(m, log) && 0 < n <= |log|
    ensures Returns(log[n - 1], Replay(m, log[..n - 1]))
    ensures Replay(m, log[..n]) == Go(log[n - 1].body, Conf(Replay(m, log[..n - 1]), []), log[n - 1].n).mem
  {
    assert log[..n][..n - 1] == log[..n - 1];
  }

  /** If get and insert alone do what they should, then so does every concurrent
      run: in commit order the memory stands for the table with the pairs inserted
      so far, and every get answers with the value stored then. */
  lemma {:induction false} Linearizes(w: View, m: Mem, log: seq<Entry>, ops: seq<TreeOp>, n: nat)
    requires Serial(m, log) && AllImplement(w, log, ops) && n <= |log|
    requires w.inv(m) && Orderly(w.abs(m), ops, w.room)
    ensures w.inv(Replay(m, log[..n])) && w.abs(Replay(m, log[..n])) == Outcome(w.abs(m), ops, n)
    ensures n < |log| ==> Answers(ops[n], Outcome(w.abs(m), ops, n), log[n].result)
  {
    if n > 0 {
      Linearizes(w, m, log, ops, n - 1);
      LogStep(w, m, log, ops, n - 1);
    }
    if n < |log| {
      LogStep(w, m, log, ops, n);
    }
  }

  lemma LogStep(w: View, m: Mem, log: seq<Entry>, ops: seq<TreeOp>, n: nat)
    requires Serial(m, log) && AllImplement(w, log, ops) && n < |log|
    requires Orderly(w.abs(m), ops, w.room)
    requires w.inv(Replay(m, log[..n])) && w.abs(Replay(m, log[..n])) == Outcome(w.abs(m), ops, n)
    ensures Done(w, Replay(m, log[..n]), Replay(m, log[..n + 1]), ops[n], log[n].result)
  {
    OrderlyPre(w.abs(m), ops, w.room, n);
    ReplayNext(m, log, n + 1);
    assert Implements(w, log[n], ops[n]);
  }

  /** The same of every state of every run. */
  lemma ConcurrentTable(w: View, ss: seq<System>, k: nat, ops: seq<TreeOp>)
    requires Run(ss) && k < |ss| && AllImplement(w, ss[k].log, ops)
    requires w.inv(ss[0].mem) && Orderly(w.abs(ss[0].mem), ops, w.room)
    ensures !ss[k].locked ==> w.inv(ss[k].mem) && w.abs(ss[k].mem) == Outcome(w.abs(ss[0].mem), ops, |ops|)
    ensures forall i {:trigger ops[i]} :: 0 <= i < |ops| ==>
      Answers(ops[i], Outcome(w.abs(ss[0].mem), ops, i), ss[k].log[i].result)
  {
    var m, log := ss[0].mem, ss[k].log;
    Serializable(ss, k);
    Linearizes(w, m, log, ops, |log|);
    assert log[..|log|] == log;
    forall i | 0 <= i < |ops| ensures Answers(ops[i], Outcome(w.abs(m), ops, i), log[i].result) {
      Linearizes(w, m, log, ops, i);
    }
  }

  // ---------- retries ----------

  ghost predicate Patient(t: Thread) {
    var c := t.counts;
    && c.nested <= MAX_NESTED + 1 && c.zero <= MAX_ZERO + 1
    && c.capacity <= MAX_CAPACITY + 1 && c.conflict <= MAX_CONFLICT + 1
    && (t.phase.Trying? || t.phase.Started? || t.phase.Running? || t.phase.Aborted? ==> !GivesUp(c))
  }

  lemma StepThreads(s: System, i: nat, step: Step, s': System)
    requires i < |s.threads| && Do(s, i, step) == Some(s')
    ensures |s'.threads| == |s.threads|
  {}

  lemma StepPatient(s: System, i: nat, step: Step, s': System, j: nat)
    requires i < |s.threads| && Do(s, i, step) == Some(s') && j < |s.threads| == |s'.threads|
    requires s.threads[i].phase.Outside? || Patient(s.threads[i])
    requires s.threads[j].phase.Outside? || Patient(s.threads[j])
    ensures s'.threads[j].phase.Outside? || Patient(s'.threads[j])
  {}

  /** A transaction that finds the lock taken aborts itself with a code that is
      not the one it waits on: no counter moves, and it tries again at once. */
  lemma BusyRetries(t: Thread)
    requires t.phase == Aborted(BUSY) && Patient(t)
    ensures AfterAbort(t).phase == Trying
    ensures AfterAbort(t).counts == t.counts.(retry := t.counts.retry + 1)
  {}

  /** In every run, the counts stay at their limits plus one, and below or at the
      limits while the thread still tries transactions. */
  lemma {:induction false} RunPatient(ss: seq<System>, k: nat, j: nat)
    requires Run(ss) && k < |ss| && j < |ss[k].threads|
    ensures |ss[k].threads| == |ss[0].threads|
    ensures ss[k].threads[j].phase.Outside? || Patient(ss[k].threads[j])
  {
    if k > 0 {
      assert StepAt(ss, k - 1);
      var i, step :| 0 <= i < |ss[k - 1].threads| && Do(ss[k - 1], i, step) == Some(ss[k]);
      StepThreads(ss[k - 1], i, step, ss[k]);
      RunPatient(ss, k - 1, i);
      RunPatient(ss, k - 1, j);
      StepPatient(ss[k - 1], i, step, ss[k], j);
    }
  }

  /** A thread after its transactions have aborted with those statuses. */
  function AfterAborts(t: Thread, statuses: seq<Status>): Thread {
    if statuses == [] then t
    else AfterAbort(AfterAborts(t, statuses[..|statuses| - 1]).(phase := Aborted(statuses[|statuses| - 1])))
  }

  /** How an abort is accounted for: the first that applies of nested, a status of
      zero, conflict, capacity. */
  datatype Cause = Nested | Zero | Conflict | Capacity | Other

  ghost predicate CausedBy(s: Status, c: Cause) {
    match c
    case Nested => s.nested
    case Zero => s == Status(false, false, false, false, false, false, 0)
    case Conflict => s.conflict && !s.nested
    case Capacity => s.capacity && !s.conflict && !s.nested
    case Other => s != Status(false, false, false, false, false, false, 0) && !s.nested && !s.conflict && !s.capacity
  }

  /** How many of the statuses have that cause. */
  ghost function Times(statuses: seq<Status>, c: Cause): (r: nat)
    ensures r <= |statuses|
  {
    if statuses == [] then 0
    else Times(statuses[..|statuses| - 1], c) + if CausedBy(statuses[|statuses| - 1], c) then 1 else 0
  }

  lemma {:induction false} AbortsCounted(t: Thread, statuses: seq<Status>)
    requires t.counts == NO_ABORTS
    ensures var c := AfterAborts(t, statuses).counts;
      && c.retry == |statuses| && c.nested == Times(statuses, Nested) && c.zero == Times(statuses, Zero)
      && c.conflict == Times(statuses, Conflict) && c.capacity == Times(statuses, Capacity)
  {
    if statuses != [] {
      AbortsCounted(t, statuses[..|statuses| - 1]);
    }
  }

  /** When a thread turns to the lock: thread i has begun an operation, and since
      then its transactions have aborted with those statuses.  If the last one
      carries the code 0x73, it first waits until the lock is free.  Then it takes
      the lock exactly if one abort was nested, one had no reason, two were for
      capacity, or eleven for conflicts; otherwise it tries again. */
  lemma TakesLockWhen(s: System, i: nat, t: Thread, statuses: seq<Status>, step: Step)
    requires t.counts == NO_ABORTS && statuses != []
    requires i < |s.threads| && s.threads[i] == AfterAborts(t, statuses)
    ensures var last := statuses[|statuses| - 1];
      var next := if || Times(statuses, Nested) >= 1 || Times(statuses, Zero) >= 1
                     || Times(statuses, Capacity) >= 2 || Times(statuses, Conflict) >= 11 then Locking else Trying;
      if last.explicitly && last.code == 0x73 then
        && s.threads[i].phase == Pausing && (Do(s, i, step).Some? <==> step.Wait? && !s.locked)
        && (Do(s, i, step).Some? ==> Do(s, i, step) == Some(With(s, i, next)))
      else s.threads[i].phase == next
  {
    AbortsCounted(t, statuses);
  }

  /** In every reachable state a thread that is in an operation can go on, unless
      it waits for the lock, and then another thread holds it. */
  lemma NobodyStuck(ss: seq<System>, k: nat, i: nat) returns (step: Step)
    requires Run(ss) && k < |ss| && i < |ss[k].threads|
    ensures Do(ss[k], i, step).Some? || ((ss[k].threads[i].phase.Pausing? || ss[k].threads[i].phase.Locking?) &&
        exists j :: 0 <= j < |ss[k].threads| && j != i && ss[k].threads[j].phase.Holding?)
  {
    RunOk(ss, k);
    var t := ss[k].threads[i];
    match t.phase
    case Outside => step := Call(t.body);
    case Trying => step := Begin;
    case Started => step := TestLock;
    case Running(h, _, _, _) => step := if t.body(h).Return? then Commit else Work;
    case Aborted(_) => step := Recover;
    case Pausing => step := Wait;
    case Locking => step := Acquire;
    case Holding(h, _) => step := if t.body(h).Return? then Unlock else Work;
  }

  // ---------- a run with both paths ----------

  /** Add one to cell 7 and return what was there. */
  function Increment(h: seq<int>): Action {
    if |h| == 0 then Read(7) else if |h| == 1 then Write(7, h[0] + 1) else Return(h[0])
  }

  function Last(ss: seq<System>): System
    requires |ss| > 0
  {
    ss[|ss| - 1]
  }

  lemma Act(ss: seq<System>, i: nat, step: Step) returns (tt: seq<System>)
    requires Run(ss) && i < |Last(ss).threads| && Do(Last(ss), i, step).Some?
    ensures Run(tt) && Last(tt) == Do(Last(ss), i, step).value
  {
    var t := Do(Last(ss), i, step).value;
    tt := ss + [t];
    forall k | 0 <= k < |tt| - 1 ensures StepAt(tt, k) {
      assert k < |ss| - 1 ==> StepAt(ss, k);
      assert k == |ss| - 1 ==> Do(tt[k], i, step) == Some(tt[k + 1]);
    }
  }

  lemma Reading() returns (ss: seq<System>)
    ensures Run(ss)
    ensures var t0 := Thread(Running([0], map[], {7}, 1), Increment, NO_ABORTS);
      Last(ss) == System(map[], false, [t0, Thread(Outside, Increment, NO_ABORTS)], map[], [])
  {
    var idle := Thread(Outside, Increment, NO_ABORTS);
    ss := [System(map[], false, [idle, idle], map[], [])];
    ss := Act(ss, 0, Call(Increment));
    ss := Act(ss, 0, Begin);
    ss := Act(ss, 0, TestLock);
    ss := Act(ss, 0, Work);
    var p := Last(ss).threads[0].phase;
    assert p.hist == [0] && p.touched == {7} && p.buffer == map[];
    assert Last(ss).threads == [Last(ss).threads[0], idle];
  }

  /** Thread 0 is in its transaction, past the read, when thread 1, after a
      failed attempt, enters the fallback section. */
  lemma Contended() returns (ss: seq<System>)
    ensures Run(ss)
    ensures var t1 := Thread(Holding([], 0), Increment, Counts(1, 0, 0, 0, 1));
      Last(ss) == System(map[], true, [Thread(Aborted(CONFLICT), Increment, NO_ABORTS), t1], map[], [])
  {
    ss := Reading();
    ss := Act(ss, 1, Call(Increment));
    ss := Act(ss, 1, Begin);
    ss := Act(ss, 1, Fail(NO_REASON));
    ss := Act(ss, 1, Recover);
    ss := Act(ss, 1, Acquire);
  }

  /** The holder finishes first, then the transaction starts over: both
      increments count. */
  lemma BothIncrement() returns (ss: seq<System>)
    ensures Run(ss) && !Last(ss).locked && Get(Last(ss).mem, 7) == 2
    ensures Last(ss).log == [Entry(1, Increment, 2, 0), Entry(0, Increment, 2, 1)]
  {
    ss := Contended();
    ss := Act(ss, 1, Work);
    ss := Act(ss, 1, Work);
    ss := Act(ss, 1, Unlock);
    ss := Act(ss, 0, Recover);
    ss := Act(ss, 0, Begin);
    ss := Act(ss, 0, TestLock);
    ss := Act(ss, 0, Work);
    ss := Act(ss, 0, Work);
    ss := Act(ss, 0, Commit);
  }
}
