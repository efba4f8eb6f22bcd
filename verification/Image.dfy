/** The image of the learned cache (serialize_db on the server, the parsing in
    client.cc): fixed-size models, padding, then the tables. */
module Image {
  import opened Keys

  // ---------- fixed-size encodings (marshal.hh) ----------

  /** The w lowest bytes of x, the lowest first. */
  function Enc(w: nat, x: nat): (r: seq<Byte>)
    ensures |r| == w
  {
    if w == 0 then [] else [x % 256] + Enc(w - 1, x / 256)
  }

  function Dec(s: seq<Byte>): nat {
    if s == [] then 0 else s[0] + 256 * Dec(s[1..])
  }

  function Limit(w: nat): nat {
    if w == 0 then 1 else 256 * Limit(w - 1)
  }

  /** Encoding and decoding w bytes keeps every number that fits. */
  lemma {:induction false} DecEnc(w: nat, x: nat)
    requires x < Limit(w)
    ensures Dec(Enc(w, x)) == x
  {
    if w > 0 {
      DecEnc(w - 1, x / 256);
      assert Enc(w, x)[1..] == Enc(w - 1, x / 256);
    }
  }

  lemma DivBytes(x: nat)
    ensures x / 256 / 256 == x / 0x1_0000 && x / 0x1_0000 / 256 == x / 0x100_0000
  {}

  /** The lowest byte comes first. */
  lemma EncFour(x: nat)
    ensures Enc(4, x) == [x % 256, x / 0x100 % 256, x / 0x1_0000 % 256, x / 0x100_0000 % 256]
  {
    DivBytes(x);
    var a, b, c := x / 256, x / 0x1_0000, x / 0x100_0000;
    assert Enc(1, c) == [c % 256] + Enc(0, c / 256);
    assert Enc(2, b) == [b % 256] + Enc(1, c);
    assert Enc(3, a) == [a % 256] + Enc(2, b);
  }

  lemma {:induction false} EncAppend(w: nat, v: nat, x: nat)
    ensures Enc(w + v, x) == Enc(w, x) + Enc(v, Above(x, w))
  {
    if w > 0 {
      EncAppend(w - 1, v, x / 256);
    }
  }

  /** x without its w lowest bytes. */
  function Above(x: nat, w: nat): nat {
    if w == 0 then x else Above(x / 256, w - 1)
  }

  lemma EncEight(x: nat)
    ensures Enc(8, x) == Enc(4, x) + Enc(4, x / 0x1_0000_0000)
  {
    EncAppend(4, 4, x);
    DivBytes(x);
    var b := x / 256 / 256;
    assert Above(x, 4) == Above(x / 256, 3) == Above(b, 2) == Above(b / 256, 1);
    assert b / 256 / 256 == x / 0x1_0000_0000;
  }

  lemma Limits()
    ensures Limit(4) == U32 && Limit(8) == U64
  {
    assert Limit(0) == 1 && Limit(1) == 256 && Limit(2) == 0x1_0000 && Limit(3) == 0x100_0000;
    assert Limit(5) == 256 * Limit(4) && Limit(6) == 256 * Limit(5) && Limit(7) == 256 * Limit(6);
  }

  /** A 32-bit signed integer, as its bits. */
  function EncInt(x: int): (r: seq<Byte>)
    ensures |r| == 4
  {
    Enc(4, x % U32)
  }

  function DecInt(s: seq<Byte>): int {
    if Dec(s) < U32 / 2 then Dec(s) else Dec(s) - U32
  }

  lemma IntRoundTrip(x: int)
    requires INT_MIN <= x <= INT_MAX
    ensures DecInt(EncInt(x)) == x
  {
    Limits();
    DecEnc(4, x % U32);
  }

  // ---------- what is stored ----------

  /** A model: its bounds and cap, and the learned parameters as opaque bytes. */
  datatype SubImage = SubImage(errMax: int, errMin: int, max: int, ml: seq<Byte>)
  {
    predicate Valid(mlSz: nat) {
      && INT_MIN <= errMax <= INT_MAX && INT_MIN <= errMin <= INT_MAX && INT_MIN <= max <= INT_MAX
      && |ml| == mlSz
    }
  }

  predicate TableValid(t: seq<nat>) {
    |t| < U32 && forall i :: 0 <= i < |t| ==> t[i] < U64
  }

  function SubSize(mlSz: nat): nat { 12 + mlSz }

  function SubBytes(s: SubImage): seq<Byte> {
    EncInt(s.errMax) + EncInt(s.errMin) + EncInt(s.max) + s.ml
  }

  function EntryBytes(t: seq<nat>): (r: seq<Byte>)
    ensures |r| == 8 * |t|
  {
    if t == [] then [] else Enc(8, t[0]) + EntryBytes(t[1..])
  }

  function TableSize(t: seq<nat>): nat { 4 + 8 * |t| }

  function TableBytes(t: seq<nat>): (r: seq<Byte>)
    ensures |r| == TableSize(t)
  {
    Enc(4, |t|) + EntryBytes(t)
  }

  function AllSubs(subs: seq<SubImage>): seq<Byte> {
    if subs == [] then [] else SubBytes(subs[0]) + AllSubs(subs[1..])
  }

  function AllTables(tts: seq<seq<nat>>): seq<Byte> {
    if tts == [] then [] else TableBytes(tts[0]) + AllTables(tts[1..])
  }

  /** bytes are the models, some padding, the tables. */
  ghost predicate IsImage(bytes: seq<Byte>, subs: seq<SubImage>, pad: seq<Byte>, tts: seq<seq<nat>>) {
    bytes == AllSubs(subs) + (pad + AllTables(tts))
  }

  ghost predicate Storable(subs: seq<SubImage>, tts: seq<seq<nat>>, mlSz: nat) {
    && (forall i :: 0 <= i < |subs| ==> subs[i].Valid(mlSz))
    && AllValid(tts)
  }

  // ---------- alignment ----------

  /** The next multiple; the program clears the low bits with a mask. */
  function RoundUp(x: nat, multiple: nat): nat
    requires multiple > 0
  {
    x + multiple - 1 - (x + multiple - 1) % multiple
  }

  lemma RoundUpIs(x: nat, multiple: nat)
    requires multiple > 0
    ensures x <= RoundUp(x, multiple) < x + multiple
  {}

  /** It is the only multiple of 8 there. */
  lemma RoundUpLeast(x: nat, y: nat)
    requires y % 8 == 0
    ensures RoundUp(x, 8) % 8 == 0
    ensures x <= y < x + 8 <==> y == RoundUp(x, 8)
  {}

  /** The program computes it with a mask, for the multiple 8: the least multiple
      from x on. */
  lemma MaskRoundsUp(x: bv64)
    requires x <= 0xFFFF_FFFF_FFFF_FFF8
    ensures ((x + 7) & (0 - 8)) % 8 == 0
    ensures x <= (x + 7) & (0 - 8)
    ensures ((x + 7) & (0 - 8)) - x < 8
  {}

  // ---------- writing ----------

  /** buf with s at position at. */
  function Patched(buf: seq<Byte>, at: nat, s: seq<Byte>): (r: seq<Byte>)
    requires at + |s| <= |buf|
    ensures |r| == |buf|
  {
    buf[..at] + s + buf[at + |s|..]
  }

  method CopyIn(buf: array<Byte>, at: nat, s: seq<Byte>)
    requires at + |s| <= buf.Length
    modifies buf
    ensures buf[..] == Patched(old(buf[..]), at, s)
  {
    var i := 0;
    while i < |s|
      invariant i <= |s|
      invariant forall j :: 0 <= j < buf.Length ==> buf[j] == if at <= j < at + i then s[j - at] else old(buf[j])
    {
      buf[at + i] := s[i];
      i := i + 1;
    }
  }

  /** s has been written from position from to upto; rest is still to come. */
  ghost predicate Written(buf: seq<Byte>, from: nat, upto: nat, all: seq<Byte>, rest: seq<Byte>) {
    from <= upto <= |buf| && buf[from..upto] + rest == all
  }

  lemma WrittenMore(buf: seq<Byte>, from: nat, upto: nat, all: seq<Byte>, s: seq<Byte>, rest: seq<Byte>)
    requires Written(buf, from, upto, all, s + rest) && upto + |s| <= |buf|
    ensures Written(Patched(buf, upto, s), from, upto + |s|, all, rest)
    ensures Patched(buf, upto, s)[..upto] == buf[..upto]
  {
    assert Patched(buf, upto, s)[from..upto + |s|] == buf[from..upto] + s;
  }

  /** Write the models; stops when one does not fit. */
  method WriteSubs(subs: seq<SubImage>, buf: array<Byte>) returns (ok: bool, cur: nat)
    modifies buf
    ensures ok <==> |AllSubs(subs)| <= buf.Length
    ensures ok ==> cur == |AllSubs(subs)| && buf[..cur] == AllSubs(subs)
  {
    cur := 0;
    var i := 0;
    while i < |subs|
      invariant i <= |subs| && Written(buf[..], 0, cur, AllSubs(subs), AllSubs(subs[i..]))
    {
      var s := SubBytes(subs[i]);
      assert subs[i..][1..] == subs[i + 1..];
      assert |AllSubs(subs)| == cur + |s| + |AllSubs(subs[i + 1..])|;
      if cur + |s| > buf.Length {
        return false, cur;
      }
      WrittenMore(buf[..], 0, cur, AllSubs(subs), s, AllSubs(subs[i + 1..]));
      CopyIn(buf, cur, s);
      cur := cur + |s|;
      i := i + 1;
    }
    ok := true;
  }

  /** Write the tables from position off on. */
  method WriteTables(tts: seq<seq<nat>>, buf: array<Byte>, off: nat) returns (ok: bool, cur: nat)
    requires tts != []
    modifies buf
    ensures ok <==> off + |AllTables(tts)| <= buf.Length
    ensures ok ==> cur == off + |AllTables(tts)| && buf[off..cur] == AllTables(tts) && buf[..off] == old(buf[..])[..off]
  {
    if off > buf.Length {
      return false, off;
    }
    cur := off;
    var i := 0;
    while i < |tts|
      invariant i <= |tts| && Written(buf[..], off, cur, AllTables(tts), AllTables(tts[i..]))
      invariant buf[..off] == old(buf[..])[..off]
    {
      var s := TableBytes(tts[i]);
      assert tts[i..][1..] == tts[i + 1..];
      assert |AllTables(tts)| == cur - off + |s| + |AllTables(tts[i + 1..])|;
      if cur + |s| > buf.Length {
        return false, cur;
      }
      WrittenMore(buf[..], off, cur, AllTables(tts), s, AllTables(tts[i + 1..]));
      CopyIn(buf, cur, s);
      cur := cur + |s|;
      i := i + 1;
    }
    ok := true;
  }

  /** Write the cache into the registered memory from modelBuf to bufEnd.  Fails
      exactly when it does not fit. */
  method SerializeDb(subs: seq<SubImage>, tts: seq<seq<nat>>, modelBuf: nat, bufEnd: nat, buf: array<Byte>)
    returns (ok: bool, ttBuf: nat, end: nat, ghost pad: seq<Byte>)
    requires bufEnd == modelBuf + buf.Length && tts != []
    modifies buf
    ensures ok <==> RoundUp(modelBuf + |AllSubs(subs)|, 8) + |AllTables(tts)| <= bufEnd
    ensures ok ==> ttBuf == RoundUp(modelBuf + |AllSubs(subs)|, 8) == modelBuf + |AllSubs(subs)| + |pad|
    ensures ok ==> modelBuf <= end <= bufEnd && IsImage(buf[..end - modelBuf], subs, pad, tts)
  {
    ttBuf, end, pad := 0, modelBuf, [];
    var cur;
    ok, cur := WriteSubs(subs, buf);
    ttBuf := RoundUp(modelBuf + cur, 8);
    RoundUpIs(modelBuf + |AllSubs(subs)|, 8);
    if ok {
      var off := ttBuf - modelBuf;
      ok, cur, pad := FinishImage(subs, tts, off, buf);
      end := modelBuf + cur;
    }
  }

  method FinishImage(ghost subs: seq<SubImage>, tts: seq<seq<nat>>, off: nat, buf: array<Byte>)
    returns (ok: bool, cur: nat, ghost pad: seq<Byte>)
    requires |AllSubs(subs)| <= buf.Length && |AllSubs(subs)| <= off && buf[..|AllSubs(subs)|] == AllSubs(subs)
    requires tts != []
    modifies buf
    ensures ok <==> off + |AllTables(tts)| <= buf.Length
    ensures ok ==> cur <= buf.Length && |pad| == off - |AllSubs(subs)| && IsImage(buf[..cur], subs, pad, tts)
  {
    ghost var before := buf[..];
    ok, cur := WriteTables(tts, buf, off);
    pad := [];
    if ok {
      pad := buf[|AllSubs(subs)|..off];
      ImageParts(before, buf[..], subs, pad, tts, off, cur);
    }
  }

  lemma ImageSlices(bytes: seq<Byte>, subs: seq<SubImage>, pad: seq<Byte>, tts: seq<seq<nat>>)
    requires IsImage(bytes, subs, pad, tts)
    ensures |AllSubs(subs)| + |pad| <= |bytes|
    ensures bytes[..|AllSubs(subs)|] == AllSubs(subs) && bytes[|AllSubs(subs)| + |pad|..] == AllTables(tts)
  {
    var n := |AllSubs(subs)|;
    assert bytes[n + |pad|..] == (pad + AllTables(tts))[|pad|..];
  }

  lemma ImageParts(before: seq<Byte>, after: seq<Byte>, subs: seq<SubImage>, pad: seq<Byte>, tts: seq<seq<nat>>,
                   off: nat, cur: nat)
    requires |AllSubs(subs)| <= off <= cur <= |after| == |before|
    requires before[..|AllSubs(subs)|] == AllSubs(subs) && after[..off] == before[..off]
    requires pad == after[|AllSubs(subs)|..off] && after[off..cur] == AllTables(tts)
    ensures IsImage(after[..cur], subs, pad, tts)
  {
    var n := |AllSubs(subs)|;
    assert after[..n] == after[..off][..n] == before[..off][..n] == before[..n];
    assert after[..cur] == after[..n] + (after[n..off] + after[off..cur]);
  }

  // ---------- parsing ----------

  lemma SubFields(s: SubImage, bytes: seq<Byte>)
    requires s.Valid(|s.ml|) && bytes == SubBytes(s)
    ensures |bytes| == SubSize(|s.ml|)
    ensures DecInt(bytes[0..4]) == s.errMax && DecInt(bytes[4..8]) == s.errMin && DecInt(bytes[8..12]) == s.max
    ensures bytes[12..] == s.ml
  {
    assert bytes[0..4] == EncInt(s.errMax) && bytes[4..8] == EncInt(s.errMin) && bytes[8..12] == EncInt(s.max);
    IntRoundTrip(s.errMax);
    IntRoundTrip(s.errMin);
    IntRoundTrip(s.max);
  }

  /** XSubModel's constructor from bytes. */
  method ParseSub(bytes: seq<Byte>, ghost s: SubImage) returns (r: SubImage)
    requires s.Valid(|s.ml|) && bytes == SubBytes(s)
    ensures r == s
  {
    SubFields(s, bytes);
    r := SubImage(DecInt(bytes[0..4]), DecInt(bytes[4..8]), DecInt(bytes[8..12]), bytes[12..]);
  }

  method ParseSubs(bytes: seq<Byte>, num: nat, mlSz: nat, ghost subs: seq<SubImage>) returns (r: seq<SubImage>)
    requires |subs| == num && (forall i :: 0 <= i < |subs| ==> subs[i].Valid(mlSz))
    requires |AllSubs(subs)| <= |bytes| && bytes[..|AllSubs(subs)|] == AllSubs(subs)
    ensures r == subs
  {
    r := [];
    var cur: nat := 0;
    var i := 0;
    ghost var view := bytes[..|AllSubs(subs)|];
    while i < num
      invariant i <= num && r == subs[..i] && cur <= |view| && view[cur..] == AllSubs(subs[i..])
    {
      assert subs[i..][1..] == subs[i + 1..];
      assert subs[i].Valid(mlSz);
      SubsHead(view, cur, subs[i], AllSubs(subs[i + 1..]));
      SliceOfPrefix(bytes, |view|, cur, cur + SubSize(mlSz));
      var sub := ParseSub(bytes[cur..cur + SubSize(mlSz)], subs[i]);
      r := r + [sub];
      cur := cur + SubSize(mlSz);
      i := i + 1;
    }
  }

  lemma SliceOfPrefix(bytes: seq<Byte>, m: nat, a: nat, b: nat)
    requires a <= b <= m <= |bytes|
    ensures bytes[..m][a..b] == bytes[a..b]
  {}

  lemma SubsHead(bytes: seq<Byte>, cur: nat, s: SubImage, rest: seq<Byte>)
    requires cur <= |bytes| && bytes[cur..] == SubBytes(s) + rest && s.Valid(|s.ml|)
    ensures cur + SubSize(|s.ml|) <= |bytes|
    ensures bytes[cur..cur + SubSize(|s.ml|)] == SubBytes(s) && bytes[cur + SubSize(|s.ml|)..] == rest
  {
    var b := SubBytes(s) + rest;
    SubFields(s, SubBytes(s));
    assert bytes[cur..cur + SubSize(|s.ml|)] == b[..SubSize(|s.ml|)];
    assert bytes[cur + SubSize(|s.ml|)..] == b[SubSize(|s.ml|)..];
  }

  /** The n entries from position from on. */
  function EntriesIn(bytes: seq<Byte>, from: nat, n: nat): (r: seq<nat>)
    requires from + 8 * n <= |bytes|
    ensures |r| == n
  {
    seq(n, i requires 0 <= i < n => Dec(bytes[from + 8 * i..from + 8 * i + 8]))
  }

  /** Tables, and the position behind them. */
  datatype Parsed = Parsed(tts: seq<seq<nat>>, end: nat)

  /** The num tables that bytes hold from position off on, if bytes are long
      enough for what they announce. */
  function TablesAt(bytes: seq<Byte>, off: nat, num: nat): Option<Parsed>
    decreases num
  {
    if num == 0 then Some(Parsed([], off))
    else if off + 4 > |bytes| then None
    else
      var n := Dec(bytes[off..off + 4]);
      if off + 4 + 8 * n > |bytes| then None
      else Joined([EntriesIn(bytes, off + 4, n)], TablesAt(bytes, off + 4 + 8 * n, num - 1))
  }

  /** Tables in front of those parsed. */
  function Joined(tts: seq<seq<nat>>, rest: Option<Parsed>): Option<Parsed> {
    match rest
    case None => None
    case Some(Parsed(more, end)) => Some(Parsed(tts + more, end))
  }

  /** TT's from_serialize, on a view of the right size. */
  method ParseTable(bytes: seq<Byte>) returns (entries: seq<nat>)
    requires |bytes| >= 4 && |bytes| == 4 + 8 * Dec(bytes[..4])
    ensures entries == EntriesIn(bytes, 4, Dec(bytes[..4]))
  {
    var n := Dec(bytes[..4]);
    var cur := 4;
    entries := [];
    var i := 0;
    while i < n
      invariant i <= n && cur == 4 + 8 * i && entries == EntriesIn(bytes, 4, n)[..i]
    {
      entries := entries + [Dec(bytes[cur..cur + 8])];
      cur := cur + 8;
      i := i + 1;
    }
  }

  lemma SliceOfSlice(bytes: seq<Byte>, a: nat, b: nat, c: nat, d: nat)
    requires a <= b <= |bytes| && c <= d <= b - a
    ensures bytes[a..b][c..d] == bytes[a + c..a + d]
  {
    assert forall k :: 0 <= k < d - c ==> bytes[a..b][c..d][k] == bytes[a + c..a + d][k];
  }

  lemma EntriesOfView(bytes: seq<Byte>, off: nat, n: nat)
    requires off + 4 + 8 * n <= |bytes|
    ensures EntriesIn(bytes[off..off + 4 + 8 * n], 4, n) == EntriesIn(bytes, off + 4, n)
  {
    var view := bytes[off..off + 4 + 8 * n];
    forall i | 0 <= i < n ensures EntriesIn(view, 4, n)[i] == EntriesIn(bytes, off + 4, n)[i] {
      SliceOfSlice(bytes, off, off + 4 + 8 * n, 4 + 8 * i, 4 + 8 * i + 8);
    }
  }

  /** One table, from position cur on. */
  method ParseOne(bytes: seq<Byte>, cur: nat) returns (t: seq<nat>)
    requires cur + 4 <= |bytes| && cur + 4 + 8 * Dec(bytes[cur..cur + 4]) <= |bytes|
    ensures t == EntriesIn(bytes, cur + 4, Dec(bytes[cur..cur + 4]))
  {
    var n := Dec(bytes[cur..cur + 4]);
    SliceOfSlice(bytes, cur, cur + 4 + 8 * n, 0, 4);
    t := ParseTable(bytes[cur..cur + 4 + 8 * n]);
    EntriesOfView(bytes, cur, n);
  }

  /** tts have been parsed, k tables from position cur on are still to come. */
  ghost predicate Parsing(bytes: seq<Byte>, off: nat, num: nat, tts: seq<seq<nat>>, cur: nat, k: nat) {
    TablesAt(bytes, off, num) == Joined(tts, TablesAt(bytes, cur, k))
  }

  lemma ParsingBegins(bytes: seq<Byte>, off: nat, num: nat)
    ensures Parsing(bytes, off, num, [], off, num)
  {
    JoinedNone(TablesAt(bytes, off, num));
  }

  lemma ParsingMore(bytes: seq<Byte>, off: nat, num: nat, tts: seq<seq<nat>>, cur: nat, k: nat, n: nat)
    requires Parsing(bytes, off, num, tts, cur, k) && k > 0
    requires cur + 4 <= |bytes| && n == Dec(bytes[cur..cur + 4]) && cur + 4 + 8 * n <= |bytes|
    ensures Parsing(bytes, off, num, tts + [EntriesIn(bytes, cur + 4, n)], cur + 4 + 8 * n, k - 1)
  {
    JoinedMore(tts, EntriesIn(bytes, cur + 4, n), TablesAt(bytes, cur + 4 + 8 * n, k - 1));
  }

  lemma ParsingEnds(bytes: seq<Byte>, off: nat, num: nat, tts: seq<seq<nat>>, cur: nat)
    requires Parsing(bytes, off, num, tts, cur, 0)
    ensures TablesAt(bytes, off, num) == Some(Parsed(tts, cur))
  {
    assert tts + [] == tts;
  }

  /** Parse num tables from position off on. */
  method ParseTables(bytes: seq<Byte>, num: nat, off: nat) returns (r: Option<Parsed>)
    ensures r == TablesAt(bytes, off, num)
  {
    var tts: seq<seq<nat>> := [];
    var cur: nat := off;
    var i: nat := 0;
    ParsingBegins(bytes, off, num);
    while i < num
      invariant i <= num && Parsing(bytes, off, num, tts, cur, num - i)
    {
      if cur + 4 > |bytes| || cur + 4 + 8 * Dec(bytes[cur..cur + 4]) > |bytes| {
        return None;
      }
      ParsingMore(bytes, off, num, tts, cur, num - i, Dec(bytes[cur..cur + 4]));
      var t := ParseOne(bytes, cur);
      tts := tts + [t];
      cur := cur + TableSize(t);
      i := i + 1;
    }
    ParsingEnds(bytes, off, num, tts, cur);
    r := Some(Parsed(tts, cur));
  }

  lemma JoinedNone(rest: Option<Parsed>)
    ensures Joined([], rest) == rest
  {
    if rest.Some? {
      assert [] + rest.value.tts == rest.value.tts;
    }
  }

  lemma JoinedMore(tts: seq<seq<nat>>, t: seq<nat>, rest: Option<Parsed>)
    ensures Joined(tts, Joined([t], rest)) == Joined(tts + [t], rest)
  {
    if rest.Some? {
      assert tts + ([t] + rest.value.tts) == tts + [t] + rest.value.tts;
    }
  }

  /** Entries come back from their bytes. */
  lemma {:induction false} EntriesBack(bytes: seq<Byte>, from: nat, t: seq<nat>)
    requires from <= |bytes| && 8 * |t| <= |bytes| - from && bytes[from..from + 8 * |t|] == EntryBytes(t)
    requires forall i :: 0 <= i < |t| ==> t[i] < U64
    ensures EntriesIn(bytes, from, |t|) == t
    decreases |t|
  {
    if t != [] {
      Limits();
      DecEnc(8, t[0]);
      assert bytes[from..from + 8] == EntryBytes(t)[..8] == Enc(8, t[0]);
      assert bytes[from + 8..from + 8 + 8 * |t[1..]|] == EntryBytes(t)[8..] == EntryBytes(t[1..]);
      EntriesBack(bytes, from + 8, t[1..]);
      forall i | 0 <= i < |t| ensures EntriesIn(bytes, from, |t|)[i] == t[i] {
        if i > 0 {
          assert EntriesIn(bytes, from + 8, |t| - 1)[i - 1] == t[1..][i - 1];
        }
      }
    }
  }

  lemma TableBack(bytes: seq<Byte>, off: nat, t: seq<nat>, rest: seq<Byte>, num: nat)
    requires off <= |bytes| && bytes[off..] == TableBytes(t) + rest && TableValid(t) && num > 0
    ensures off + TableSize(t) <= |bytes| && bytes[off + TableSize(t)..] == rest
    ensures TablesAt(bytes, off, num) == Joined([t], TablesAt(bytes, off + TableSize(t), num - 1))
  {
    TableHead(bytes, off, t, rest);
    SliceOfSlice(bytes, off, off + TableSize(t), 4, TableSize(t));
    assert bytes[off + 4..off + 4 + 8 * |t|] == EntryBytes(t);
    EntriesBack(bytes, off + 4, t);
  }

  /** From position off on, bytes are parsed as tts, to the end. */
  ghost predicate Back(bytes: seq<Byte>, off: nat, tts: seq<seq<nat>>) {
    TablesAt(bytes, off, |tts|) == Some(Parsed(tts, |bytes|))
  }

  lemma TableEnds(bytes: seq<Byte>, off: nat, t: seq<nat>, after: seq<Byte>)
    requires off <= |bytes| && bytes[off..] == TableBytes(t) + after && TableValid(t)
    ensures off + TableSize(t) <= |bytes| && bytes[off + TableSize(t)..] == after
  {
    TableHead(bytes, off, t, after);
  }

  /** A table is parsed, and what follows it. */
  lemma TablesStep(bytes: seq<Byte>, off: nat, t: seq<nat>, after: seq<Byte>, rest: seq<seq<nat>>)
    requires off <= |bytes| && bytes[off..] == TableBytes(t) + after && TableValid(t)
    requires Back(bytes, off + TableSize(t), rest)
    ensures Back(bytes, off, [t] + rest)
  {
    TableBack(bytes, off, t, after, |rest| + 1);
  }

  ghost predicate AllValid(tts: seq<seq<nat>>) {
    forall i {:trigger TableValid(tts[i])} :: 0 <= i < |tts| ==> TableValid(tts[i])
  }

  lemma ValidTail(tts: seq<seq<nat>>)
    requires AllValid(tts) && tts != []
    ensures TableValid(tts[0]) && AllValid(tts[1..])
  {
    forall i | 0 <= i < |tts[1..]| ensures TableValid(tts[1..][i]) {
      assert TableValid(tts[i + 1]);
    }
  }

  /** Parsing gives back the tables whose bytes these are. */
  lemma {:induction false} TablesBack(bytes: seq<Byte>, off: nat, tts: seq<seq<nat>>)
    requires off <= |bytes| && bytes[off..] == AllTables(tts) && AllValid(tts)
    ensures Back(bytes, off, tts)
    decreases |tts|
  {
    if tts == [] {
      assert |bytes[off..]| == 0;
    } else {
      var t, rest := tts[0], tts[1..];
      ValidTail(tts);
      TableEnds(bytes, off, t, AllTables(rest));
      TablesBack(bytes, off + TableSize(t), rest);
      TablesStep(bytes, off, t, AllTables(rest), rest);
      assert [t] + rest == tts;
    }
  }

  lemma TableHead(bytes: seq<Byte>, cur: nat, t: seq<nat>, rest: seq<Byte>)
    requires cur <= |bytes| && bytes[cur..] == TableBytes(t) + rest && TableValid(t)
    ensures cur + TableSize(t) <= |bytes| && Dec(bytes[cur..cur + 4]) == |t|
    ensures bytes[cur..cur + TableSize(t)] == TableBytes(t) && bytes[cur + TableSize(t)..] == rest
  {
    Limits();
    DecEnc(4, |t|);
    var b := TableBytes(t) + rest;
    assert bytes[cur..cur + 4] == b[..4] == Enc(4, |t|);
    assert bytes[cur..cur + TableSize(t)] == b[..TableSize(t)];
    assert bytes[cur + TableSize(t)..] == b[TableSize(t)..];
  }

  /** What the client makes of the bytes that the server has written is exactly
      the server's models and tables, for every start address, and it stops at
      the end of the image. */
  method Bootstrap(subs: seq<SubImage>, tts: seq<seq<nat>>, mlSz: nat, modelBuf: nat, bufEnd: nat, buf: array<Byte>)
    returns (ok: bool, ttBuf: nat, end: nat, subs': seq<SubImage>, tts': seq<seq<nat>>, cur: nat)
    requires bufEnd == modelBuf + buf.Length && |subs| == |tts| > 0 && Storable(subs, tts, mlSz)
    modifies buf
    ensures ok <==> RoundUp(modelBuf + |AllSubs(subs)|, 8) + |AllTables(tts)| <= bufEnd
    ensures ok ==> subs' == subs && tts' == tts && modelBuf + cur == end
  {
    ghost var pad;
    ok, ttBuf, end, pad := SerializeDb(subs, tts, modelBuf, bufEnd, buf);
    subs', tts', cur := [], [], 0;
    if ok {
      var bytes := buf[..end - modelBuf];
      ImageSlices(bytes, subs, pad, tts);
      subs' := ParseSubs(bytes, |subs|, mlSz, subs);
      TablesBack(bytes, ttBuf - modelBuf, tts);
      var parsed := ParseTables(bytes, |subs|, ttBuf - modelBuf);
      tts', cur := parsed.value.tts, parsed.value.end;
    }
  }

  // ---------- sizes ----------

  lemma {:induction false} SubsLength(subs: seq<SubImage>, mlSz: nat)
    requires forall i {:trigger subs[i].Valid(mlSz)} :: 0 <= i < |subs| ==> subs[i].Valid(mlSz)
    ensures |AllSubs(subs)| == |subs| * SubSize(mlSz)
  {
    if subs != [] {
      var rest := subs[1..];
      assert subs[0].Valid(mlSz);
      forall i | 0 <= i < |rest| ensures rest[i].Valid(mlSz) {
        assert subs[i + 1].Valid(mlSz);
      }
      SubsLength(rest, mlSz);
      TimesMore(|subs|, SubSize(mlSz));
    }
  }

  lemma TimesMore(a: nat, m: nat)
    requires a > 0
    ensures a * m == m + (a - 1) * m
  {}

  /** How many entries the tables have. */
  function Entries(tts: seq<seq<nat>>): nat {
    if tts == [] then 0 else |tts[0]| + Entries(tts[1..])
  }

  lemma {:induction false} TablesLength(tts: seq<seq<nat>>)
    ensures |AllTables(tts)| == 4 * |tts| + 8 * Entries(tts)
  {
    if tts != [] {
      TablesLength(tts[1..]);
    }
  }

  lemma {:induction false} EntriesBound(tts: seq<seq<nat>>, most: nat)
    requires forall t :: t in tts ==> |t| <= most
    ensures Entries(tts) <= |tts| * most
  {
    if tts != [] {
      var t, rest := tts[0], tts[1..];
      assert t in tts && |tts| * most == most + |rest| * most;
      EntriesBound(rest, most);
    }
  }

  // ---------- the YCSB client ----------

  /** The YCSB client looks for the tables right behind the models, without
      skipping the padding. */
  method YcsbBootstrap(subs: seq<SubImage>, tts: seq<seq<nat>>, mlSz: nat, modelBuf: nat, bufEnd: nat,
                       buf: array<Byte>)
    returns (ok: bool, subs': seq<SubImage>, parsed: Option<Parsed>, ghost pad: seq<Byte>)
    requires bufEnd == modelBuf + buf.Length && |subs| == |tts| > 0 && Storable(subs, tts, mlSz)
    modifies buf
    ensures ok <==> RoundUp(modelBuf + |AllSubs(subs)|, 8) + |AllTables(tts)| <= bufEnd
    ensures ok ==> subs' == subs && |pad| == Padding(subs, modelBuf) && parsed == Unskipped(subs, pad, tts)
    ensures ok && (modelBuf + |subs| * SubSize(mlSz)) % 8 == 0 ==> parsed.Some? && parsed.value.tts == tts
  {
    var ttBuf, end;
    ok, ttBuf, end, pad := SerializeDb(subs, tts, modelBuf, bufEnd, buf);
    subs', parsed := [], None;
    if ok {
      SubsLength(subs, mlSz);
      AlignedParsed(subs, pad, tts, modelBuf);
      subs', parsed := YcsbParse(buf[..end - modelBuf], subs, pad, tts, mlSz);
    }
  }

  method YcsbParse(bytes: seq<Byte>, ghost subs: seq<SubImage>, ghost pad: seq<Byte>, tts: seq<seq<nat>>, mlSz: nat)
    returns (subs': seq<SubImage>, parsed: Option<Parsed>)
    requires IsImage(bytes, subs, pad, tts) && |subs| == |tts| > 0 && Storable(subs, tts, mlSz)
    ensures subs' == subs && parsed == Unskipped(subs, pad, tts)
  {
    ImageSlices(bytes, subs, pad, tts);
    SubsLength(subs, mlSz);
    subs' := ParseSubs(bytes, |tts|, mlSz, subs);
    parsed := ParseTables(bytes, |tts|, |tts| * SubSize(mlSz));
  }

  /** The bytes between the models and the tables. */
  function Padding(subs: seq<SubImage>, modelBuf: nat): nat {
    RoundUp(modelBuf + |AllSubs(subs)|, 8) - (modelBuf + |AllSubs(subs)|)
  }

  /** What it makes of an image with this padding. */
  function Unskipped(subs: seq<SubImage>, pad: seq<Byte>, tts: seq<seq<nat>>): Option<Parsed> {
    TablesAt(AllSubs(subs) + (pad + AllTables(tts)), |AllSubs(subs)|, |tts|)
  }

  lemma NoPadding(subs: seq<SubImage>, tts: seq<seq<nat>>)
    requires AllValid(tts)
    ensures Unskipped(subs, [], tts) == Some(Parsed(tts, |AllSubs(subs)| + |AllTables(tts)|))
  {
    Behind(AllSubs(subs), AllTables(tts));
    TablesBack(AllSubs(subs) + ([] + AllTables(tts)), |AllSubs(subs)|, tts);
  }

  lemma Behind(a: seq<Byte>, b: seq<Byte>)
    ensures (a + ([] + b))[|a|..] == b && |a + ([] + b)| == |a| + |b|
  {}

  /** If the first byte of the padding is not that of the first table, the first
      table is not what was sent. */
  lemma PaddingRead(subs: seq<SubImage>, pad: seq<Byte>, tts: seq<seq<nat>>)
    requires pad != [] && tts != [] && pad[0] != |tts[0]| % 256
    ensures Unskipped(subs, pad, tts).Some? ==> Unskipped(subs, pad, tts).value.tts != tts
  {
    var bytes, off := AllSubs(subs) + (pad + AllTables(tts)), |AllSubs(subs)|;
    if off + 4 <= |bytes| {
      assert bytes[off..off + 4][0] == pad[0];
      assert Dec(bytes[off..off + 4]) % 256 == pad[0];
    }
  }

  /** Whatever that many bytes of padding hold, it gets the tables. */
  ghost predicate AlwaysRecovered(subs: seq<SubImage>, tts: seq<seq<nat>>, q: nat) {
    forall pad {:trigger Recovered(subs, pad, tts)} :: |pad| == q ==> Recovered(subs, pad, tts)
  }

  ghost predicate Recovered(subs: seq<SubImage>, pad: seq<Byte>, tts: seq<seq<nat>>) {
    Unskipped(subs, pad, tts) == Some(Parsed(tts, |AllSubs(subs)| + |pad| + |AllTables(tts)|))
  }

  lemma RecoveredUnpadded(subs: seq<SubImage>, tts: seq<seq<nat>>)
    requires AllValid(tts)
    ensures AlwaysRecovered(subs, tts, 0)
  {
    forall pad: seq<Byte> | |pad| == 0 ensures Recovered(subs, pad, tts) {
      assert pad == [];
      NoPadding(subs, tts);
    }
  }

  lemma LostPadded(subs: seq<SubImage>, tts: seq<seq<nat>>, q: nat)
    requires tts != [] && q > 0
    ensures !AlwaysRecovered(subs, tts, q)
  {
    var b: Byte := (|tts[0]| + 1) % 256;
    var pad := seq(q, i => b);
    PaddingRead(subs, pad, tts);
    assert !Recovered(subs, pad, tts);
  }

  lemma PaddingNone(x: nat)
    ensures RoundUp(x, 8) - x == 0 <==> x % 8 == 0
  {}

  /** It gets the tables exactly when there is no padding. */
  lemma PaddingMatters(subs: seq<SubImage>, tts: seq<seq<nat>>, q: nat)
    requires tts != [] && AllValid(tts)
    ensures AlwaysRecovered(subs, tts, q) <==> q == 0
  {
    if q == 0 {
      RecoveredUnpadded(subs, tts);
    } else {
      LostPadded(subs, tts, q);
    }
  }

  /** The YCSB client gets the tables, whatever the padding holds, exactly when
      there is none: when the models end at a multiple of 8. */
  lemma UnskippedExact(subs: seq<SubImage>, tts: seq<seq<nat>>, modelBuf: nat)
    requires tts != [] && AllValid(tts)
    ensures (modelBuf + |AllSubs(subs)|) % 8 == 0 <==> AlwaysRecovered(subs, tts, Padding(subs, modelBuf))
  {
    PaddingNone(modelBuf + |AllSubs(subs)|);
    PaddingMatters(subs, tts, Padding(subs, modelBuf));
  }

  lemma AlignedParsed(subs: seq<SubImage>, pad: seq<Byte>, tts: seq<seq<nat>>, modelBuf: nat)
    requires tts != [] && AllValid(tts) && |pad| == Padding(subs, modelBuf)
    ensures (modelBuf + |AllSubs(subs)|) % 8 == 0 ==>
      Unskipped(subs, pad, tts).Some? && Unskipped(subs, pad, tts).value.tts == tts
  {
    if (modelBuf + |AllSubs(subs)|) % 8 == 0 {
      PaddingNone(modelBuf + |AllSubs(subs)|);
      assert pad == [];
      NoPadding(subs, tts);
    }
  }
}
