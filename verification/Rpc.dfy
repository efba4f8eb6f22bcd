/** Remote calls: messages (op.hh, proto.hh), the station that collects replies
    (reply_station.hh), and the run of coroutines, server and network
    (rpc/mod.hh, eval_w_rpc). */
module Rpc {
  import opened Keys

  // ---------- headers ----------

  const TYPE_LIMIT := 4
  const ID_LIMIT := 32
  const PAYLOAD_LIMIT := 0x4_0000
  const COR_LIMIT := 128
  // the 32 bits of a header are padded to 8 bytes
  const HEADER_SIZE := 8

  datatype Header = Header(kind: nat, rpcId: nat, payload: nat, corId: nat)

  /** Bit fields of 2, 5, 18 and 7 bits; what does not fit is cut off. */
  function Narrow(h: Header): Header {
    Header(h.kind % TYPE_LIMIT, h.rpcId % ID_LIMIT, h.payload % PAYLOAD_LIMIT, h.corId % COR_LIMIT)
  }

  function Pack(h: Header): nat {
    var g := Narrow(h);
    g.kind + TYPE_LIMIT * (g.rpcId + ID_LIMIT * (g.payload + PAYLOAD_LIMIT * g.corId))
  }

  function Unpack(x: nat): Header {
    Header(x % TYPE_LIMIT, x / TYPE_LIMIT % ID_LIMIT, x / TYPE_LIMIT / ID_LIMIT % PAYLOAD_LIMIT,
           x / TYPE_LIMIT / ID_LIMIT / PAYLOAD_LIMIT % COR_LIMIT)
  }

  predicate Fits(h: Header) {
    h.kind < TYPE_LIMIT && h.rpcId < ID_LIMIT && h.payload < PAYLOAD_LIMIT && h.corId < COR_LIMIT
  }

  /** A header arrives as it was set exactly when every field fits. */
  lemma HeaderRoundTrip(h: Header)
    ensures Pack(h) < 0x1_0000_0000 && Unpack(Pack(h)) == Narrow(h)
    ensures Unpack(Pack(h)) == h <==> Fits(h)
    ensures Fits(h) ==>
      && Pack(h) % 4 == h.kind && Pack(h) / 4 % 32 == h.rpcId
      && Pack(h) / 128 % 0x4_0000 == h.payload && Pack(h) / 0x200_0000 == h.corId
  {
    var g := Narrow(h);
    var c := g.payload + PAYLOAD_LIMIT * g.corId;
    var b := g.rpcId + ID_LIMIT * c;
    assert Pack(h) == g.kind + TYPE_LIMIT * b;
    assert Pack(h) / TYPE_LIMIT == b && b / ID_LIMIT == c && c / PAYLOAD_LIMIT == g.corId;
  }

  // ---------- building a message ----------

  /** A message under construction: its header, its buffer's size, and what has
      been put behind the header. */
  class RPCOp {
    var header: Header
    var size: nat
    var body: seq<Byte>

    constructor (size: nat)
      requires size >= HEADER_SIZE
      ensures Valid() && this.size == size && body == [] && header == Header(0, 0, 0, 0)
    {
      header, this.size, body := Header(0, 0, 0, 0), size, [];
    }

    ghost predicate Valid()
      reads this
    {
      HEADER_SIZE + |body| <= size
    }

    /** set_req, set_reply, set_rpc_id and set_corid store into bit fields. */
    method Address(kind: nat, rpcId: nat, corId: nat)
      modifies this`header
      ensures header == Narrow(old(header).(kind := kind, rpcId := rpcId, corId := corId))
    {
      header := Narrow(header.(kind := kind, rpcId := rpcId, corId := corId));
    }

    /** add_arg and add_opaque: refused exactly when the buffer is too small. */
    method Add(data: seq<Byte>) returns (ok: bool)
      requires Valid()
      modifies this`body
      ensures Valid() && ok == (8 + |old(body)| + |data| <= size)
      ensures body == if ok then old(body) + data else old(body)
    {
      if |data| + HEADER_SIZE + |body| > size {
        return false;
      }
      body := body + data;
      ok := true;
    }

    /** The message on the wire. */
    method Finalize() returns (bits: nat, payload: seq<Byte>)
      requires Valid()
      modifies this`header, this`size
      ensures bits == Pack(old(header).(payload := |body|)) && payload == body && size == 8 + |body|
    {
      header := header.(payload := |body|);
      bits := Pack(header);
      header := Narrow(header);
      payload := body;
      size := HEADER_SIZE + |body|;
    }
  }

  /** What the event loop reads from a message: None when its length check
      fails. */
  function Receive(bits: nat, content: seq<Byte>): Option<(Header, seq<Byte>)> {
    var h := Unpack(bits);
    if h.payload <= |content| then Some((h, content[..h.payload])) else None
  }

  /** The length check fails exactly when less has arrived than was announced. */
  lemma ReceivesWhole(bits: nat, content: seq<Byte>)
    ensures Receive(bits, content) == None <==> |content| < bits / 128 % 0x4_0000
    ensures Receive(bits, content).Some? ==> |Receive(bits, content).value.1| == bits / 128 % 0x4_0000
  {
    assert bits / TYPE_LIMIT / ID_LIMIT == bits / 128;
  }

  /** A message is received as it was built exactly when its header fits. */
  lemma MessageRoundTrip(h: Header, body: seq<Byte>)
    ensures Receive(Pack(h.(payload := |body|)), body) == Some((h.(payload := |body|), body)) <==>
        Fits(h.(payload := |body|))
  {
    HeaderRoundTrip(h.(payload := |body|));
    assert body[..|body|] == body;
  }

  // ---------- the reply station ----------

  /** Replies still expected, the room for them, and what has arrived. */
  datatype Entry = Entry(pending: nat, room: nat, got: seq<Byte>)

  const NO_ENTRY := Entry(0, 0, [])

  /** append_reply's three ends. */
  datatype Append = Refused | Overflow | Stored(entry: Entry)

  function AppendTo(e: Entry, data: seq<Byte>): Append {
    if e.pending == 0 then Refused
    else if |e.got| + |data| > e.room then Overflow
    else Stored(Entry(e.pending - 1, e.room, e.got + data))
  }

  class ReplyStation {
    var corReplies: seq<Entry>

    constructor (numCors: nat)
      ensures corReplies == seq(numCors, i => NO_ENTRY)
    {
      corReplies := seq(numCors, i => NO_ENTRY);
    }

    method AddPendingReply(c: nat, reply: Entry) returns (ok: bool)
      requires c < |corReplies|
      modifies this
      ensures ok == (old(corReplies)[c].pending == 0)
      ensures corReplies == if ok then old(corReplies)[c := reply] else old(corReplies)
    {
      if corReplies[c].pending > 0 {
        return false;
      }
      corReplies := corReplies[c := reply];
      ok := true;
    }

    method CorReady(c: nat) returns (ready: bool)
      requires c < |corReplies|
      ensures ready == (corReplies[c].pending == 0)
    {
      ready := corReplies[c].pending == 0;
    }

    /** Refused when no reply is expected; the program asserts that there is
        room. */
    method AppendReply(c: nat, data: seq<Byte>) returns (ok: bool)
      requires c < |corReplies| && (corReplies[c].pending == 0 || |corReplies[c].got| + |data| <= corReplies[c].room)
      modifies this
      ensures ok == (old(corReplies)[c].pending > 0)
      ensures var e := old(corReplies)[c];
        corReplies == if ok then old(corReplies)[c := Entry(e.pending - 1, e.room, e.got + data)] else old(corReplies)
      ensures ok ==> AppendTo(old(corReplies)[c], data) == Stored(corReplies[c])
      ensures !ok ==> AppendTo(old(corReplies)[c], data) == Refused
    {
      var ready := CorReady(c);
      if ready {
        return false;
      }
      var r := corReplies[c];
      corReplies := corReplies[c := r.(got := r.got + data, pending := r.pending - 1)];
      ok := true;
    }
  }

  // ---------- coroutines, server, network ----------

  /** A request, or its reply: the number in its header and which request it
      is. */
  datatype Message = Message(cor: nat, id: nat)

  datatype Coroutine = Running | Waiting(id: nat) | Scheduled(id: nat)

  /** next numbers the requests. */
  datatype System = System(station: seq<Entry>, cors: seq<Coroutine>, requests: seq<Message>, replies: seq<Message>,
                           next: nat)

  datatype Step = Issue(c: nat) | Serve(i: nat) | Deliver(i: nat) | Resume(c: nat)

  /** A step is not possible, runs into a failing assertion, or leads on. */
  datatype Result = Impossible | Fails | Goes(to: System)

  /** answer is what the server replies to a request, room the size of a
      coroutine's reply buffer.  Messages are neither lost nor duplicated, but
      may overtake each other. */
  function Do(answer: nat -> seq<Byte>, room: nat, s: System, step: Step): Result {
    match step
    case Issue(c) =>
      if c >= |s.cors| || !s.cors[c].Running? then Impossible
      else
        var n := c % COR_LIMIT;
        if n >= |s.station| || c >= |s.station| then Fails
        else
          // the station's answer is ignored
          var st := if s.station[n].pending > 0 then s.station else s.station[n := Entry(1, room, [])];
          if st[c].pending == 0 then Fails
          else Goes(System(st, s.cors[c := Waiting(s.next)], s.requests + [Message(n, s.next)], s.replies, s.next + 1))
    case Serve(i) =>
      if i >= |s.requests| then Impossible
      else Goes(s.(requests := Without(s.requests, i), replies := s.replies + [s.requests[i]]))
    case Deliver(i) =>
      if i >= |s.replies| then Impossible
      else
        var m := s.replies[i];
        if m.cor >= |s.station| then Fails
        else
          var r := AppendTo(s.station[m.cor], answer(m.id));
          if !r.Stored? then Fails
          else
            var t := s.(station := s.station[m.cor := r.entry], replies := Without(s.replies, i));
            if r.entry.pending > 0 then Goes(t)
            else if m.cor >= |s.cors| || !s.cors[m.cor].Waiting? then Fails
            else Goes(t.(cors := t.cors[m.cor := Scheduled(s.cors[m.cor].id)]))
    case Resume(c) =>
      if c >= |s.cors| || !s.cors[c].Scheduled? then Impossible else Goes(s.(cors := s.cors[c := Running]))
  }

  ghost predicate Init(s: System) {
    && |s.station| == |s.cors| && s.requests == [] && s.replies == []
    && (forall c :: 0 <= c < |s.cors| ==> s.cors[c].Running? && s.station[c] == NO_ENTRY)
  }

  ghost predicate StepAt(answer: nat -> seq<Byte>, room: nat, ss: seq<System>, i: nat)
    requires i < |ss| - 1
  {
    exists step :: Do(answer, room, ss[i], step) == Goes(ss[i + 1])
  }

  ghost predicate Run(answer: nat -> seq<Byte>, room: nat, ss: seq<System>) {
    && |ss| > 0 && Init(ss[0])
    && forall i {:trigger StepAt(answer, room, ss, i)} :: 0 <= i < |ss| - 1 ==> StepAt(answer, room, ss, i)
  }

  // ---------- what every step keeps ----------

  function Count(ms: seq<Message>, c: nat): nat {
    if ms == [] then 0 else (if ms[0].cor == c then 1 else 0) + Count(ms[1..], c)
  }

  lemma {:induction false} CountConcat(a: seq<Message>, b: seq<Message>, c: nat)
    ensures Count(a + b, c) == Count(a, c) + Count(b, c)
  {
    if a == [] {
      assert a + b == b;
    } else {
      CountConcat(a[1..], b, c);
      assert (a + b)[1..] == a[1..] + b;
    }
  }

  lemma CountOne(m: Message, c: nat)
    ensures Count([m], c) == if m.cor == c then 1 else 0
  {
    assert [m][1..] == [];
  }

  lemma CountWithout(ms: seq<Message>, i: nat, c: nat)
    requires i < |ms|
    ensures Count(Without(ms, i), c) == Count(ms, c) - if ms[i].cor == c then 1 else 0
  {
    CountConcat(ms[..i], ms[i + 1..], c);
    CountConcat(ms[..i] + [ms[i]], ms[i + 1..], c);
    CountConcat(ms[..i], [ms[i]], c);
    CountOne(ms[i], c);
    assert ms == ms[..i] + [ms[i]] + ms[i + 1..];
  }

  lemma CountAdd(ms: seq<Message>, m: Message, c: nat)
    ensures Count(ms + [m], c) == Count(ms, c) + if m.cor == c then 1 else 0
  {
    CountConcat(ms, [m], c);
    CountOne(m, c);
  }

  /** Replies fit into the coroutines' buffers. */
  ghost predicate Sized(answer: nat -> seq<Byte>, room: nat) {
    forall id: nat {:trigger answer(id)} :: |answer(id)| <= room
  }

  /** A coroutine and its station entry: nothing outstanding while it runs; one
      reply pending while it waits; once scheduled, its buffer holds the answer
      to its own latest request. */
  ghost predicate CoroutineOk(answer: nat -> seq<Byte>, room: nat, s: System, c: nat)
    requires c < |s.cors| && c < |s.station|
  {
    && s.station[c].pending == Count(s.requests, c) + Count(s.replies, c)
    && match s.cors[c]
       case Running => s.station[c].pending == 0
       case Waiting(id) => s.station[c] == Entry(1, room, []) && id < s.next
       case Scheduled(id) => s.station[c] == Entry(0, room, answer(id)) && id < s.next
  }

  /** A message belongs to the request that its coroutine waits for. */
  ghost predicate MessageOk(s: System, m: Message) {
    m.cor < |s.cors| && s.cors[m.cor] == Waiting(m.id)
  }

  ghost predicate Ok(answer: nat -> seq<Byte>, room: nat, s: System) {
    && |s.station| == |s.cors| <= COR_LIMIT
    && (forall c {:trigger CoroutineOk(answer, room, s, c)} :: 0 <= c < |s.cors| ==> CoroutineOk(answer, room, s, c))
    && (forall m {:trigger MessageOk(s, m)} :: m in s.requests || m in s.replies ==> MessageOk(s, m))
  }

  lemma IssueOk(answer: nat -> seq<Byte>, room: nat, s: System, c: nat)
    requires Ok(answer, room, s) && c < |s.cors| && s.cors[c].Running?
    ensures var r := Do(answer, room, s, Issue(c)); r.Goes? && Ok(answer, room, r.to)
  {
    assert CoroutineOk(answer, room, s, c);
    var t := Do(answer, room, s, Issue(c)).to;
    forall d | 0 <= d < |t.cors| ensures CoroutineOk(answer, room, t, d) {
      assert CoroutineOk(answer, room, s, d);
      CountAdd(s.requests, Message(c, s.next), d);
    }
    forall m | m in t.requests || m in t.replies ensures MessageOk(t, m) {
      assert m in s.requests || m in s.replies ==> MessageOk(s, m);
    }
  }

  lemma ServeOk(answer: nat -> seq<Byte>, room: nat, s: System, i: nat)
    requires Ok(answer, room, s) && i < |s.requests|
    ensures var r := Do(answer, room, s, Serve(i)); r.Goes? && Ok(answer, room, r.to)
  {
    var t := Do(answer, room, s, Serve(i)).to;
    forall d | 0 <= d < |t.cors| ensures CoroutineOk(answer, room, t, d) {
      assert CoroutineOk(answer, room, s, d);
      CountWithout(s.requests, i, d);
      CountAdd(s.replies, s.requests[i], d);
    }
    forall m | m in t.requests || m in t.replies ensures MessageOk(t, m) {
      assert MessageOk(s, m);
    }
  }

  /** The reply that arrives is the only message of its coroutine. */
  lemma {:induction false} CountIn(ms: seq<Message>, m: Message)
    requires m in ms
    ensures Count(ms, m.cor) >= 1
  {
    if ms[0] != m {
      CountIn(ms[1..], m);
    }
  }

  lemma DeliverMessages(answer: nat -> seq<Byte>, room: nat, s: System, i: nat, t: System, m: Message)
    requires Ok(answer, room, s) && i < |s.replies| && Do(answer, room, s, Deliver(i)) == Goes(t)
    requires m in t.requests || m in t.replies
    ensures MessageOk(t, m)
  {
    var a := s.replies[i];
    assert MessageOk(s, a) && CoroutineOk(answer, room, s, a.cor);
    assert m in s.requests || m in s.replies;
    assert MessageOk(s, m);
    CountWithout(s.replies, i, a.cor);
    if m in t.requests {
      CountIn(s.requests, m);
    } else {
      CountIn(t.replies, m);
    }
  }

  lemma DeliverOk(answer: nat -> seq<Byte>, room: nat, s: System, i: nat)
    requires Ok(answer, room, s) && Sized(answer, room) && i < |s.replies|
    ensures var r := Do(answer, room, s, Deliver(i)); r.Goes? && Ok(answer, room, r.to)
  {
    var a := s.replies[i];
    assert MessageOk(s, a) && CoroutineOk(answer, room, s, a.cor);
    assert |answer(a.id)| <= room && [] + answer(a.id) == answer(a.id);
    var t := Do(answer, room, s, Deliver(i)).to;
    forall d | 0 <= d < |t.cors| ensures CoroutineOk(answer, room, t, d) {
      assert CoroutineOk(answer, room, s, d);
      CountWithout(s.replies, i, d);
    }
    forall m | m in t.requests || m in t.replies ensures MessageOk(t, m) {
      DeliverMessages(answer, room, s, i, t, m);
    }
  }

  lemma ResumeOk(answer: nat -> seq<Byte>, room: nat, s: System, c: nat)
    requires Ok(answer, room, s) && c < |s.cors| && s.cors[c].Scheduled?
    ensures var r := Do(answer, room, s, Resume(c)); r.Goes? && Ok(answer, room, r.to)
  {
    var t := Do(answer, room, s, Resume(c)).to;
    forall d | 0 <= d < |t.cors| ensures CoroutineOk(answer, room, t, d) {
      assert CoroutineOk(answer, room, s, d);
    }
    forall m | m in t.requests || m in t.replies ensures MessageOk(t, m) {
      assert MessageOk(s, m);
    }
  }

  lemma StepOk(answer: nat -> seq<Byte>, room: nat, s: System, step: Step)
    requires Ok(answer, room, s) && Sized(answer, room)
    ensures !Do(answer, room, s, step).Fails?
    ensures Do(answer, room, s, step).Goes? ==> Ok(answer, room, Do(answer, room, s, step).to)
  {
    if !Do(answer, room, s, step).Impossible? {
      match step
      case Issue(c) => IssueOk(answer, room, s, c);
      case Serve(i) => ServeOk(answer, room, s, i);
      case Deliver(i) => DeliverOk(answer, room, s, i);
      case Resume(c) => ResumeOk(answer, room, s, c);
    }
  }

  lemma {:induction false} RunOk(answer: nat -> seq<Byte>, room: nat, ss: seq<System>, k: nat)
    requires Run(answer, room, ss) && Sized(answer, room) && |ss[0].cors| <= COR_LIMIT && k < |ss|
    ensures Ok(answer, room, ss[k])
  {
    if k > 0 {
      RunOk(answer, room, ss, k - 1);
      assert StepAt(answer, room, ss, k - 1);
      var step :| Do(answer, room, ss[k - 1], step) == Goes(ss[k]);
      StepOk(answer, room, ss[k - 1], step);
    } else {
      forall c | 0 <= c < |ss[0].cors| ensures CoroutineOk(answer, room, ss[0], c) {}
    }
  }

  // ---------- the main results ----------

  /** With at most 128 coroutines and replies that fit, no assertion fails in any
      run: a reply that arrives is always expected. */
  lemma NothingFails(answer: nat -> seq<Byte>, room: nat, ss: seq<System>, k: nat, step: Step)
    requires Run(answer, room, ss) && Sized(answer, room) && |ss[0].cors| <= COR_LIMIT && k < |ss|
    ensures !Do(answer, room, ss[k], step).Fails?
  {
    RunOk(answer, room, ss, k);
    StepOk(answer, room, ss[k], step);
  }

  /** A coroutine's pending replies are 0 or 1, and as many as its requests and
      replies on their way. */
  lemma Conserved(answer: nat -> seq<Byte>, room: nat, ss: seq<System>, k: nat, c: nat)
    requires Run(answer, room, ss) && Sized(answer, room) && |ss[0].cors| <= COR_LIMIT && k < |ss|
    requires c < |ss[k].cors| && c < |ss[k].station|
    ensures var s := ss[k];
      s.station[c].pending == Count(s.requests, c) + Count(s.replies, c) <= 1
  {
    RunOk(answer, room, ss, k);
    assert CoroutineOk(answer, room, ss[k], c);
  }

  /** A coroutine is resumed only with the answer to its own latest request in
      its buffer. */
  lemma OwnAnswer(answer: nat -> seq<Byte>, room: nat, ss: seq<System>, k: nat, c: nat)
    requires Run(answer, room, ss) && Sized(answer, room) && |ss[0].cors| <= COR_LIMIT && k < |ss|
    requires c < |ss[k].cors| && Do(answer, room, ss[k], Resume(c)).Goes?
    ensures c < |ss[k].station| && ss[k].station[c].got == answer(ss[k].cors[c].id)
  {
    RunOk(answer, room, ss, k);
    assert CoroutineOk(answer, room, ss[k], c);
  }

  // ---------- calls come to an end ----------

  lemma RunMore(answer: nat -> seq<Byte>, room: nat, ss: seq<System>, step: Step) returns (tt: seq<System>)
    requires Run(answer, room, ss) && Do(answer, room, ss[|ss| - 1], step).Goes?
    ensures Run(answer, room, tt) && tt == ss + [Do(answer, room, ss[|ss| - 1], step).to]
  {
    tt := ss + [Do(answer, room, ss[|ss| - 1], step).to];
    forall i | 0 <= i < |tt| - 1 ensures StepAt(answer, room, tt, i) {
      assert i < |ss| - 1 ==> StepAt(answer, room, ss, i) && tt[i] == ss[i] && tt[i + 1] == ss[i + 1];
      assert i == |ss| - 1 ==> Do(answer, room, tt[i], step) == Goes(tt[i + 1]);
    }
  }

  lemma {:induction false} Counted(ms: seq<Message>, c: nat) returns (i: nat)
    requires Count(ms, c) > 0
    ensures i < |ms| && ms[i].cor == c
  {
    if ms[0].cor == c {
      i := 0;
    } else {
      i := Counted(ms[1..], c);
      i := i + 1;
    }
  }

  /** The next step for coroutine c, in any reachable state: to issue a request, to
      serve or to deliver its own message, or to be resumed; afterwards it can issue
      a request again. */
  lemma NobodyStuck(answer: nat -> seq<Byte>, room: nat, ss: seq<System>, k: nat, c: nat)
    returns (step: Step, to: System)
    requires Run(answer, room, ss) && Sized(answer, room) && |ss[0].cors| <= COR_LIMIT && k < |ss|
    requires c < |ss[k].cors|
    ensures Do(answer, room, ss[k], step) == Goes(to) && c < |to.cors|
    ensures match ss[k].cors[c]
            case Running =>
              step == Issue(c) && to.cors[c] == Waiting(ss[k].next) && Message(c, ss[k].next) in to.requests
            case Waiting(id) =>
              || (step.Serve? && Message(c, id) in ss[k].requests && Message(c, id) in to.replies)
              || (step.Deliver? && Message(c, id) in ss[k].replies && to.cors[c] == Scheduled(id))
            case Scheduled(_) => step == Resume(c) && to.cors[c] == Running && Do(answer, room, to, Issue(c)).Goes?
  {
    RunOk(answer, room, ss, k);
    var s := ss[k];
    assert CoroutineOk(answer, room, s, c);
    match s.cors[c] {
      case Running =>
        step := Issue(c);
        IssueOk(answer, room, s, c);
      case Waiting(id) =>
        if Count(s.requests, c) > 0 {
          var i := Counted(s.requests, c);
          assert MessageOk(s, s.requests[i]);
          step := Serve(i);
          ServeOk(answer, room, s, i);
        } else {
          var i := Counted(s.replies, c);
          assert MessageOk(s, s.replies[i]);
          step := Deliver(i);
          DeliverOk(answer, room, s, i);
        }
      case Scheduled(_) =>
        step := Resume(c);
        ResumeOk(answer, room, s, c);
        IssueOk(answer, room, Do(answer, room, s, step).to, c);
    }
    to := Do(answer, room, s, step).to;
  }

  /** The state of coroutine c on its way through a call. */
  ghost predicate At(answer: nat -> seq<Byte>, room: nat, ss: seq<System>, c: nat, co: Coroutine) {
    && Run(answer, room, ss) && |ss[0].cors| <= COR_LIMIT
    && c < |ss[|ss| - 1].cors| && ss[|ss| - 1].cors[c] == co
  }

  /** From every reachable state, a coroutine that runs can call: after its
      request, the server's reply, its delivery and its resumption it runs again,
      with the answer to that request in its buffer. */
  lemma CallReturns(answer: nat -> seq<Byte>, room: nat, ss: seq<System>, c: nat) returns (tt: seq<System>)
    requires At(answer, room, ss, c, Running) && Sized(answer, room)
    ensures At(answer, room, tt, c, Running) && |tt| == |ss| + 4 && tt[..|ss|] == ss
    ensures c < |tt[|tt| - 1].station| && tt[|tt| - 1].station[c].got == answer(ss[|ss| - 1].next)
  {
    var id := ss[|ss| - 1].next;
    var step, to := NobodyStuck(answer, room, ss, |ss| - 1, c);
    var t1 := RunMore(answer, room, ss, step);
    assert At(answer, room, t1, c, Waiting(id));
    var t3 := WaitEnds(answer, room, t1, c, id);
    step, to := NobodyStuck(answer, room, t3, |t3| - 1, c);
    OwnAnswer(answer, room, t3, |t3| - 1, c);
    tt := RunMore(answer, room, t3, step);
    assert tt[..|ss|] == t1[..|ss|] == ss;
  }

  /** A request just issued is served and its reply delivered. */
  lemma WaitEnds(answer: nat -> seq<Byte>, room: nat, ss: seq<System>, c: nat, id: nat) returns (tt: seq<System>)
    requires At(answer, room, ss, c, Waiting(id)) && Sized(answer, room)
    requires Message(c, id) in ss[|ss| - 1].requests
    ensures At(answer, room, tt, c, Scheduled(id)) && |tt| == |ss| + 2 && tt[..|ss|] == ss
  {
    var s := ss[|ss| - 1];
    var i :| 0 <= i < |s.requests| && s.requests[i] == Message(c, id);
    NothingFails(answer, room, ss, |ss| - 1, Serve(i));
    var t := RunMore(answer, room, ss, Serve(i));
    var j := |t[|ss|].replies| - 1;
    assert t[|ss|].replies[j] == Message(c, id);
    NothingFails(answer, room, t, |ss|, Deliver(j));
    RunOk(answer, room, t, |ss|);
    assert CoroutineOk(answer, room, t[|ss|], c);
    tt := RunMore(answer, room, t, Deliver(j));
  }

  /** Coroutine numbers above 127 do not fit into the header: with more than 128
      coroutines, the first call of number 128 runs into its assertion. */
  lemma TooManyCoroutines(answer: nat -> seq<Byte>, room: nat, s: System)
    requires Init(s) && |s.cors| > COR_LIMIT
    ensures Do(answer, room, s, Issue(COR_LIMIT)) == Fails
  {
    assert COR_LIMIT % COR_LIMIT == 0;
    assert s.station[COR_LIMIT] == NO_ENTRY;
  }
}
