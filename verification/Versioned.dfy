/** The versioned object (wrapper_type.hh) with one writer and any number of
    readers (atomic_rw/mod.hh, local_rw_op.hh), as a step system.

    Stores of the writer and loads of the readers interleave freely.  A reader
    copies the object cell by cell from the lowest address up: first seq, then
    the payload, then seq_check. */
module Versioned {
  import opened Keys

  type Word = w: int | 0 <= w < U32

  const INVALID_SEQ: Word := 0

  /** The writer is outside of a write; has invalidated seq_check; has
      invalidated both; has published seq. */
  datatype Phase = Idle | Opened | Writing | Published

  /** written holds the payloads of the completed writes, the initial one first;
      it is not part of the memory. */
  datatype Object = Object(seq0: Word, payload: seq<Word>, check: Word, phase: Phase, saved: Word,
                           written: seq<seq<Word>>)

  /** pos cells have been copied.  first and last are the numbers of the write
      that was the latest when seq and seq_check were copied. */
  datatype Reader = Reader(pos: nat, seq0: Word, payload: seq<Word>, check: Word, first: nat, last: nat, retries: nat)

  datatype System = System(obj: Object, readers: seq<Reader>)

  // ---------- steps ----------

  datatype WriteStep = Invalidate | Open | Store(i: nat, w: Word) | Publish | Finish

  function Next(s: Word): Word {
    (s + 1) % U32
  }

  /** One store of the writer.  begin_write is Invalidate, Open; done_write is
      Publish, Finish. */
  function Write(o: Object, step: WriteStep): Option<Object> {
    match step
    case Invalidate => if o.phase.Idle? then Some(o.(check := INVALID_SEQ, saved := o.check, phase := Opened)) else None
    case Open => if o.phase.Opened? then Some(o.(seq0 := INVALID_SEQ, phase := Writing)) else None
    case Store(i, w) =>
      if o.phase.Writing? && i < |o.payload| then Some(o.(payload := o.payload[i := w])) else None
    case Publish =>
      if o.phase.Writing? then Some(o.(seq0 := Next(o.saved), phase := Published, written := o.written + [o.payload]))
      else None
    case Finish => if o.phase.Published? then Some(o.(check := o.seq0, phase := Idle)) else None
  }

  /** The number of the latest completed write. */
  function Latest(o: Object): int { |o.written| - 1 }

  /** One load of a reader; at the end it retries unless the copy is
      consistent. */
  function Load(o: Object, r: Reader): Reader
    requires |o.written| > 0
  {
    var n := |o.payload|;
    if r.pos == 0 then r.(pos := 1, seq0 := o.seq0, payload := [], first := Latest(o), retries := 0)
    else if r.pos <= n then r.(pos := r.pos + 1, payload := r.payload + [o.payload[r.pos - 1]])
    else if r.pos == n + 1 then r.(pos := n + 2, check := o.check, last := Latest(o))
    else if Consistent(r) then r
    else r.(pos := 0, retries := r.retries + 1)
  }

  /** The copy passes the check. */
  predicate Consistent(r: Reader) {
    r.seq0 == r.check && r.seq0 != INVALID_SEQ
  }

  /** A reader's load, or the start of its next read. */
  ghost predicate Moves(o: Object, r: Reader, r': Reader) {
    || (|o.written| > 0 && r' == Load(o, r))
    || (r.pos == |o.payload| + 2 && Consistent(r) && r' == r.(pos := 0))
  }

  ghost predicate Steps(s: System, t: System) {
    || (exists w :: Write(s.obj, w) == Some(t.obj) && t.readers == s.readers)
    || (t.obj == s.obj &&
        exists i, r :: 0 <= i < |s.readers| && Moves(s.obj, s.readers[i], r) && t.readers == s.readers[i := r])
  }

  function Fresh(): Reader { Reader(0, 0, [], 0, 0, 0, 0) }

  /** An initialised object and readers that have not started. */
  ghost predicate Init(s: System) {
    && s.obj.phase.Idle? && s.obj.seq0 == INVALID_SEQ + 1 && s.obj.check == s.obj.seq0
    && s.obj.written == [s.obj.payload]
    && forall i :: 0 <= i < |s.readers| ==> s.readers[i] == Fresh()
  }

  ghost predicate Run(ss: seq<System>) {
    && |ss| > 0 && Init(ss[0])
    && forall i {:trigger StepAt(ss, i)} :: 0 <= i < |ss| - 1 ==> StepAt(ss, i)
  }

  ghost predicate StepAt(ss: seq<System>, i: nat)
    requires i < |ss| - 1
  {
    Steps(ss[i], ss[i + 1])
  }

  // ---------- what every step keeps ----------

  /** The sequence number of write number v. */
  function Number(v: int): Word {
    (v + 1) % U32
  }

  ghost predicate ObjectOk(o: Object) {
    && |o.written| > 0
    && (forall v :: 0 <= v < |o.written| ==> |o.written[v]| == |o.payload|)
    && match o.phase
       case Idle => o.seq0 == o.check == Number(Latest(o)) && o.payload == o.written[Latest(o)]
       case Opened => o.seq0 == o.saved == Number(Latest(o)) && o.check == INVALID_SEQ
           && o.payload == o.written[Latest(o)]
       case Writing => o.seq0 == o.check == INVALID_SEQ && o.saved == Number(Latest(o))
       case Published => o.seq0 == Number(Latest(o)) && o.check == INVALID_SEQ && o.payload == o.written[Latest(o)]
  }

  /** The copied cells are those of write v. */
  ghost predicate CopyOf(p: seq<Word>, v: nat, o: Object) {
    v < |o.written| && |p| <= |o.written[v]| && p == o.written[v][..|p|]
  }

  ghost predicate ReaderOk(o: Object, r: Reader) {
    var n := |o.payload|;
    && r.pos <= n + 2 && r.retries <= (if r.pos == 0 then 1 else 0)
    && (r.pos >= 1 ==> |r.payload| == Min(r.pos - 1, n) && r.first <= Latest(o))
    && (r.pos >= 1 && r.seq0 != INVALID_SEQ ==> r.seq0 == Number(r.first))
    // nothing has been overwritten since seq was copied
    && (1 <= r.pos && r.seq0 != INVALID_SEQ && Latest(o) == r.first && !o.phase.Writing? ==>
        CopyOf(r.payload, r.first, o))
    // nor had been when seq_check was copied
    && (r.pos == n + 2 && r.check != INVALID_SEQ ==> r.first <= r.last <= Latest(o) && r.check == Number(r.last))
    && (r.pos == n + 2 && r.seq0 != INVALID_SEQ && r.check != INVALID_SEQ && r.first == r.last ==>
        CopyOf(r.payload, r.first, o))
  }

  ghost predicate Ok(s: System) {
    ObjectOk(s.obj) && forall i :: 0 <= i < |s.readers| ==> ReaderOk(s.obj, s.readers[i])
  }

  lemma WriteOk(o: Object, w: WriteStep, p: Object)
    requires ObjectOk(o) && Write(o, w) == Some(p)
    ensures ObjectOk(p) && |p.payload| == |o.payload|
    ensures p.written == o.written || (o.phase.Writing? && p.written == o.written + [o.payload])
    ensures p.written == o.written && !p.phase.Writing? ==> !o.phase.Writing?
  {}

  lemma CopyKept(o: Object, p: Object, c: seq<Word>, v: nat)
    requires CopyOf(c, v, o) && o.written <= p.written
    ensures CopyOf(c, v, p)
  {}

  /** A store of the writer does not disturb what is known of a reader. */
  lemma ReaderKept(o: Object, w: WriteStep, p: Object, r: Reader)
    requires ObjectOk(o) && Write(o, w) == Some(p) && ReaderOk(o, r)
    ensures ReaderOk(p, r)
  {
    WriteOk(o, w, p);
    if CopyOf(r.payload, r.first, o) {
      CopyKept(o, p, r.payload, r.first);
    }
  }

  lemma LoadOk(o: Object, r: Reader)
    requires ObjectOk(o) && ReaderOk(o, r)
    ensures ReaderOk(o, Load(o, r))
  {
    var n := |o.payload|;
    if 1 <= r.pos <= n {
      var v := o.written[Latest(o)];
      assert r.payload == v[..r.pos - 1] && o.payload == v ==> r.payload + [o.payload[r.pos - 1]] == v[..r.pos];
    }
  }

  lemma StepOk(s: System, t: System)
    requires Ok(s) && Steps(s, t)
    ensures Ok(t) && |t.readers| == |s.readers|
  {
    if w :| Write(s.obj, w) == Some(t.obj) && t.readers == s.readers {
      WriteOk(s.obj, w, t.obj);
      forall i | 0 <= i < |t.readers| ensures ReaderOk(t.obj, t.readers[i]) {
        ReaderKept(s.obj, w, t.obj, s.readers[i]);
      }
    } else {
      var i, r :| 0 <= i < |s.readers| && Moves(s.obj, s.readers[i], r) && t.readers == s.readers[i := r];
      LoadOk(s.obj, s.readers[i]);
    }
  }

  lemma {:induction false} RunOk(ss: seq<System>, i: nat)
    requires Run(ss) && i < |ss|
    ensures Ok(ss[i]) && |ss[i].readers| == |ss[0].readers|
  {
    if i > 0 {
      RunOk(ss, i - 1);
      assert StepAt(ss, i - 1);
      StepOk(ss[i - 1], ss[i]);
    }
  }

  // ---------- safety ----------

  lemma NumberInjective(a: nat, b: nat)
    requires a <= b < a + U32 && Number(a) == Number(b)
    ensures a == b
  {}

  /** Reader r has finished a read that passes the check. */
  ghost predicate Passed(s: System, r: nat) {
    r < |s.readers| && s.readers[r].pos == |s.obj.payload| + 2 && Consistent(s.readers[r])
  }

  /** How many writes completed during the read. */
  ghost function During(s: System, r: nat): int
    requires r < |s.readers|
  {
    s.readers[r].last - s.readers[r].first
  }

  /** A read that passes the check returns exactly the payload of one completed
      write, the one that was the latest when the read began, provided the
      numbers did not wrap around during the read. */
  lemma ReadsOneWrite(ss: seq<System>, i: nat, r: nat)
    requires Run(ss) && i < |ss| && Passed(ss[i], r) && During(ss[i], r) < U32
    ensures var o, rd := ss[i].obj, ss[i].readers[r];
      && rd.first < |o.written| && rd.payload == o.written[rd.first] && rd.last == rd.first
  {
    RunOk(ss, i);
    var o, rd := ss[i].obj, ss[i].readers[r];
    assert ReaderOk(o, rd);
    NumberInjective(rd.first, rd.last);
  }

  /** The retry counter starts over with every attempt, so it never gets to its
      limit: the assertion about it never fails, and bounds nothing. */
  lemma RetriesNeverAdd(ss: seq<System>, i: nat, r: nat)
    requires Run(ss) && i < |ss| && r < |ss[i].readers|
    ensures ss[i].readers[r].retries <= 1
  {
    RunOk(ss, i);
    assert ReaderOk(ss[i].obj, ss[i].readers[r]);
  }

  // ---------- the proviso is needed ----------

  function Last(ss: seq<System>): System
    requires |ss| > 0
  {
    ss[|ss| - 1]
  }

  lemma Extend(ss: seq<System>, t: System)
    requires Run(ss) && Steps(Last(ss), t)
    ensures Run(ss + [t])
  {
    var tt := ss + [t];
    forall i | 0 <= i < |tt| - 1 ensures StepAt(tt, i) {
      assert i < |ss| - 1 ==> StepAt(ss, i);
    }
  }

  lemma Stores(ss: seq<System>, w: WriteStep) returns (tt: seq<System>)
    requires Run(ss) && Write(Last(ss).obj, w).Some?
    ensures Run(tt) && Last(tt) == System(Write(Last(ss).obj, w).value, Last(ss).readers)
  {
    var t := System(Write(Last(ss).obj, w).value, Last(ss).readers);
    assert Write(Last(ss).obj, w) == Some(t.obj);
    Extend(ss, t);
    tt := ss + [t];
  }

  lemma Loads(ss: seq<System>, i: nat) returns (tt: seq<System>)
    requires Run(ss) && i < |Last(ss).readers| && |Last(ss).obj.written| > 0
    ensures Run(tt)
    ensures var s := Last(ss); Last(tt) == System(s.obj, s.readers[i := Load(s.obj, s.readers[i])])
    ensures tt == ss + [Last(tt)]
  {
    var s := Last(ss);
    var t := System(s.obj, s.readers[i := Load(s.obj, s.readers[i])]);
    assert Moves(s.obj, s.readers[i], Load(s.obj, s.readers[i]));
    Extend(ss, t);
    tt := ss + [t];
  }

  // ---------- a read that no write disturbs ----------

  /** The object stays as it is from state i to state j, and idle. */
  ghost predicate Quiet(ss: seq<System>, i: nat, j: nat) {
    && i <= j < |ss| && ss[i].obj.phase.Idle?
    && forall k {:trigger ss[k]} :: i <= k <= j ==> ss[k].obj == ss[i].obj
  }

  /** What the reader has copied is what the object holds. */
  ghost predicate Current(o: Object, r: Reader) {
    var n := |o.payload|;
    && r.pos <= n + 2
    && (r.pos >= 1 ==> r.seq0 == o.seq0 && r.payload == o.payload[..Min(r.pos - 1, n)])
    && (r.pos == n + 2 ==> r.check == o.check)
  }

  lemma MovesCurrent(o: Object, r: Reader, r': Reader)
    requires Current(o, r) && Moves(o, r, r')
    ensures Current(o, r')
  {
    if 1 <= r.pos <= |o.payload| {
      assert o.payload[..r.pos - 1] + [o.payload[r.pos - 1]] == o.payload[..r.pos];
    }
  }

  lemma {:induction false} StaysCurrent(ss: seq<System>, i: nat, j: nat, r: nat)
    requires Run(ss) && Quiet(ss, i, j) && r < |ss[i].readers| && ss[i].readers[r].pos == 0
    ensures r < |ss[j].readers| && Current(ss[j].obj, ss[j].readers[r])
    decreases j
  {
    if i < j {
      StaysCurrent(ss, i, j - 1, r);
      assert StepAt(ss, j - 1);
      var s, t := ss[j - 1], ss[j];
      assert s.obj == t.obj == ss[i].obj;
      if w :| Write(s.obj, w) == Some(t.obj) && t.readers == s.readers {
      } else {
        var m, rd :| 0 <= m < |s.readers| && Moves(s.obj, s.readers[m], rd) && t.readers == s.readers[m := rd];
        if m == r {
          MovesCurrent(s.obj, s.readers[r], rd);
        }
      }
    }
  }

  /** The reader's loads up to the end of its read, with nothing in between. */
  lemma {:induction false} LoadsOn(ss: seq<System>, r: nat, m: nat) returns (tt: seq<System>)
    requires Run(ss) && r < |Last(ss).readers| && |Last(ss).obj.written| > 0
    requires Last(ss).readers[r].pos + m <= |Last(ss).obj.payload| + 2
    ensures Run(tt) && |tt| == |ss| + m && tt[..|ss|] == ss && |Last(tt).readers| == |Last(ss).readers|
    ensures Last(tt).readers[r].pos == Last(ss).readers[r].pos + m
    ensures forall k {:trigger tt[k]} :: |ss| - 1 <= k < |tt| ==> tt[k].obj == Last(ss).obj
  {
    tt := ss;
    if m > 0 {
      tt := LoadsOn(ss, r, m - 1);
      var was := tt;
      tt := Loads(was, r);
      assert tt[..|ss|] == was[..|ss|];
    }
  }

  /** In any run, whatever the other readers do: a read begun while the object is
      idle, and during which the writer takes no step, ends with the payload of
      the latest write.  It is returned, not retried, if and only if the number of
      payloads so far is not a multiple of 2^32. */
  lemma QuietRead(ss: seq<System>, i: nat, j: nat, r: nat)
    requires Run(ss) && Quiet(ss, i, j) && r < |ss[i].readers| && ss[i].readers[r].pos == 0
    requires r < |ss[j].readers| && ss[j].readers[r].pos == |ss[j].obj.payload| + 2
    ensures var o, rd := ss[j].obj, ss[j].readers[r];
      && |o.written| > 0 && rd.payload == o.written[|o.written| - 1]
      && (Load(o, rd) == rd <==> |o.written| % 0x1_0000_0000 != 0)
      && (Load(o, rd).pos == 0 <==> |o.written| % 0x1_0000_0000 == 0)
      && (Moves(o, rd, rd.(pos := 0)) <==> |o.written| % 0x1_0000_0000 != 0)
  {
    StaysCurrent(ss, i, j, r);
    RunOk(ss, j);
    var o := ss[j].obj;
    assert o == ss[i].obj && o.payload[..|o.payload|] == o.payload;
  }

  /** From every reachable state with an idle object, a reader about to begin can
      take those loads, so a quiet read always comes to its end. */
  lemma QuietReadEnds(ss: seq<System>, r: nat) returns (tt: seq<System>)
    requires Run(ss) && Last(ss).obj.phase.Idle? && r < |Last(ss).readers| && Last(ss).readers[r].pos == 0
    ensures Run(tt) && |tt| == |ss| + |Last(ss).obj.payload| + 2 && tt[..|ss|] == ss && Quiet(tt, |ss| - 1, |tt| - 1)
    ensures var o := Last(ss).obj;
      && |o.written| > 0 && r < |Last(tt).readers| && Last(tt).readers[r].payload == o.written[|o.written| - 1]
      && (Load(o, Last(tt).readers[r]) == Last(tt).readers[r] <==> |o.written| % 0x1_0000_0000 != 0)
  {
    RunOk(ss, |ss| - 1);
    tt := LoadsOn(ss, r, |Last(ss).obj.payload| + 2);
    assert tt[|ss| - 1] == Last(ss);
    QuietRead(tt, |ss| - 1, |tt| - 1, r);
  }

  /** words times the word x. */
  function Filled(words: nat, x: Word): seq<Word> {
    seq(words, i => x)
  }

  /** The stores that put x into the first m words. */
  lemma {:induction false} StoreFirst(ss: seq<System>, x: Word, m: nat) returns (tt: seq<System>)
    requires Run(ss) && Last(ss).obj.phase.Writing? && m <= |Last(ss).obj.payload|
    ensures Run(tt) && Last(tt).readers == Last(ss).readers
    ensures var p := Last(ss).obj.payload;
      Last(tt).obj == Last(ss).obj.(payload := Filled(m, x) + p[m..])
  {
    tt := ss;
    var p := Last(ss).obj.payload;
    if m == 0 {
      assert Filled(0, x) + p == p;
    } else {
      tt := StoreFirst(ss, x, m - 1);
      tt := Stores(tt, Store(m - 1, x));
      assert (Filled(m - 1, x) + p[m - 1..])[m - 1 := x] == Filled(m, x) + p[m..];
    }
  }

  /** One whole write of the word x throughout. */
  lemma OneWrite(ss: seq<System>, x: Word) returns (tt: seq<System>)
    requires Run(ss) && Last(ss).obj.phase.Idle?
    ensures var p := Filled(|Last(ss).obj.payload|, x);
      && Run(tt) && Last(tt).obj.phase.Idle? && Last(tt).obj.payload == p
      && Last(tt).obj.written == Last(ss).obj.written + [p] && Last(tt).readers == Last(ss).readers
  {
    var n := |Last(ss).obj.payload|;
    tt := Stores(ss, Invalidate);
    tt := Stores(tt, Open);
    tt := StoreFirst(tt, x, n);
    assert Last(tt).obj.payload == Filled(n, x);
    tt := Stores(tt, Publish);
    tt := Stores(tt, Finish);
  }

  lemma {:induction false} ManyWrites(ss: seq<System>, k: nat, x: Word) returns (tt: seq<System>)
    requires Run(ss) && Last(ss).obj.phase.Idle?
    ensures Run(tt) && Last(tt).obj.phase.Idle? && Last(tt).readers == Last(ss).readers
    ensures var n := |Last(ss).obj.payload|;
      && |Last(tt).obj.payload| == n && (k > 0 ==> Last(tt).obj.payload == Filled(n, x))
      && |Last(tt).obj.written| == |Last(ss).obj.written| + k
      && (forall p :: p in Last(tt).obj.written ==> p in Last(ss).obj.written || p == Filled(n, x))
  {
    tt := ss;
    if k > 0 {
      tt := ManyWrites(ss, k - 1, x);
      tt := OneWrite(tt, x);
    }
  }

  /** The reader with the payload copied up to word m. */
  function Copied(r: Reader, p: seq<Word>, m: nat): Reader
    requires 1 <= r.pos <= m + 1 && m <= |p|
  {
    r.(pos := m + 1, payload := r.payload + p[r.pos - 1..m])
  }

  lemma CopiedMore(o: Object, r: Reader, m: nat)
    requires 1 <= r.pos <= m && m <= |o.payload| && |o.written| > 0
    ensures Load(o, Copied(r, o.payload, m - 1)) == Copied(r, o.payload, m)
  {
    var a := r.payload + o.payload[r.pos - 1..m - 1];
    assert o.payload[r.pos - 1..m - 1] + [o.payload[m - 1]] == o.payload[r.pos - 1..m];
    assert a + [o.payload[m - 1]] == r.payload + o.payload[r.pos - 1..m];
  }

  /** A lone reader's loads of the payload from where it is up to word m. */
  lemma {:induction false} LoadsTo(ss: seq<System>, m: nat) returns (tt: seq<System>)
    requires Run(ss) && |Last(ss).readers| == 1 && |Last(ss).obj.written| > 0
    requires 1 <= Last(ss).readers[0].pos <= m + 1 && m <= |Last(ss).obj.payload|
    ensures var o := Last(ss).obj;
      Run(tt) && Last(tt) == System(o, [Copied(Last(ss).readers[0], o.payload, m)])
    decreases m
  {
    var r, o := Last(ss).readers[0], Last(ss).obj;
    if r.pos == m + 1 {
      tt := ss;
      assert r.payload + o.payload[m..m] == r.payload;
      assert Copied(r, o.payload, m) == r && Last(ss).readers == [r];
    } else {
      tt := LoadsTo(ss, m - 1);
      CopiedMore(o, r, m);
      tt := Loads(tt, 0);
      assert Last(tt).readers == [Copied(r, o.payload, m)];
    }
  }

  /** The reader has copied seq and the first word of a payload of ones. */
  lemma HalfRead(words: nat) returns (ss: seq<System>)
    requires words >= 2
    ensures Run(ss) && Last(ss).obj == Object(1, Filled(words, 1), 1, Idle, 0, [Filled(words, 1)])
    ensures Last(ss).readers == [Reader(2, 1, [1], 0, 0, 0, 0)]
  {
    var o := Object(1, Filled(words, 1), 1, Idle, 0, [Filled(words, 1)]);
    ss := [System(o, [Fresh()])];
    ss := Loads(ss, 0);
    ss := Loads(ss, 0);
    assert Last(ss).readers[0].payload == [1];
  }

  /** 2^32 writes during one read bring the number around: a read of any payload
      of at least two words can then pass the check with words of two writes. */
  lemma WrapTears(words: nat) returns (ss: seq<System>)
    requires words >= 2
    ensures Run(ss) && |Last(ss).obj.payload| == words && Passed(Last(ss), 0)
    ensures During(Last(ss), 0) == U32 && Last(ss).readers[0].payload !in Last(ss).obj.written
  {
    ss := HalfRead(words);
    ss := ManyWrites(ss, U32, 2);
    RunOk(ss, |ss| - 1);
    var o := Last(ss).obj;
    ss := LoadsTo(ss, words);
    assert Last(ss).readers[0].payload == [1] + Filled(words, 2)[1..words];
    ss := Loads(ss, 0);
    var p := Last(ss).readers[0].payload;
    assert p[0] == 1 && p[1] == 2;
    assert Filled(words, 1)[1] == 1 && Filled(words, 2)[0] == 2;
  }

  /** In every run, reads of payloads of that many words that pass the check with
      at most w writes during them return the payload of a write. */
  ghost predicate SafeUpTo(w: nat, words: nat) {
    forall ss: seq<System>, i: nat, r: nat {:trigger SafeRead(ss, i, r, w, words)} :: SafeRead(ss, i, r, w, words)
  }

  ghost predicate SafeRead(ss: seq<System>, i: nat, r: nat, w: nat, words: nat) {
    Run(ss) && i < |ss| && |ss[i].obj.payload| == words && Passed(ss[i], r) && During(ss[i], r) <= w ==>
      ss[i].readers[r].payload in ss[i].obj.written
  }

  /** Reads are safe with at most w writes during them exactly if w is below
      2^32, whatever the size of the payload, if it has at least two words. */
  lemma SafeIff(w: nat, words: nat)
    requires words >= 2
    ensures SafeUpTo(w, words) <==> w < U32
  {
    if w < U32 {
      forall ss: seq<System>, i: nat, r: nat ensures SafeRead(ss, i, r, w, words) {
        if Run(ss) && i < |ss| && Passed(ss[i], r) && During(ss[i], r) <= w {
          ReadsOneWrite(ss, i, r);
        }
      }
    } else {
      var ss := WrapTears(words);
      assert !SafeRead(ss, |ss| - 1, 0, w, words);
    }
  }

  // ---------- the object itself ----------

  /** obj is the step system's view of the object. */
  class WrappedType {
    var seq0: Word
    var payload: seq<Word>
    var seqCheck: Word
    ghost var obj: Object
    // the stores performed so far, in order
    ghost var trace: seq<WriteStep>

    ghost predicate Valid()
      reads this
    {
      ObjectOk(obj) && obj.seq0 == seq0 && obj.payload == payload && obj.check == seqCheck
    }

    constructor (p: seq<Word>)
      ensures Valid() && obj.phase.Idle? && obj.written == [p] && trace == []
    {
      payload := p;
      seq0 := INVALID_SEQ + 1;
      seqCheck := INVALID_SEQ + 1;
      obj, trace := Object(1, p, 1, Idle, 0, [p]), [];
    }

    /** Two stores, in this order; the result is to be given to DoneWrite. */
    method BeginWrite() returns (ret: Word)
      requires Valid() && obj.phase.Idle?
      modifies this`seq0, this`seqCheck, this`obj, this`trace
      ensures trace == old(trace) + [Invalidate, Open]
      ensures Valid() && obj.phase.Writing? && ret == obj.saved == Number(Latest(obj))
      ensures obj.written == old(obj.written)
      ensures seq0 == seqCheck == INVALID_SEQ
    {
      ret := seqCheck;
      seqCheck := INVALID_SEQ;
      obj, trace := Write(obj, Invalidate).value, trace + [Invalidate];
      seq0 := INVALID_SEQ;
      obj, trace := Write(obj, Open).value, trace + [Open];
    }

    method Set(i: nat, w: Word)
      requires Valid() && obj.phase.Writing? && i < |payload|
      modifies this`payload, this`obj, this`trace
      ensures trace == old(trace) + [Store(i, w)]
      ensures Valid() && obj.phase.Writing? && obj.saved == old(obj.saved) && obj.written == old(obj.written)
      ensures payload == old(payload)[i := w]
    {
      payload := payload[i := w];
      obj, trace := Write(obj, Store(i, w)).value, trace + [Store(i, w)];
    }

    method DoneWrite(s: Word)
      requires Valid() && obj.phase.Writing? && s == obj.saved
      modifies this`seq0, this`seqCheck, this`obj, this`trace
      ensures trace == old(trace) + [Publish, Finish]
      ensures Valid() && obj.phase.Idle? && obj.written == old(obj.written) + [payload]
      ensures seq0 == seqCheck == Number(Latest(obj))
    {
      seq0 := Next(s);
      obj, trace := Write(obj, Publish).value, trace + [Publish];
      seqCheck := seq0;
      obj, trace := Write(obj, Finish).value, trace + [Finish];
    }
  }
}
