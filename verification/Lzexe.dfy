/**
 The LZEXE main loop run natively: registers, segmented addresses and memory, step by
 step, and the proof that it writes the LZ77 expansion of the stream at DS:SI.
 */
module Lzexe {
  import opened Memory
  import opened RealModeMemory
  import opened LzexeCode

  /** Loop state; `al`/`bx`/`cx` are the scratch registers the stub leaves behind. */
  datatype State = State(mem: Mem, ds: nat, es: nat, si: nat, di: nat, bp: nat, dx: nat, bx: nat, af: bool) {
    predicate Valid() {
      mem.Valid() && ds < 0x1_0000 && es < 0x1_0000 && si < 0x1_0000 && di < 0x1_0000
      && bp < 0x1_0000 && dx < 0x1_0000 && bx < 0x1_0000
    }
  }

  datatype Outcome = Again(s: State) | Finished(s: State) | Raised(s: State) | TooManyOps(s: State)

  /** Shift one flag bit out of BP; when the sixteenth is gone, load the next word at DS:SI. */
  function NextBit(s: State): (r: (bool, State))
    requires s.Valid()
    ensures r.1.Valid()
  {
    var dx := (s.dx - 1) % 0x1_0000;
    var s1 := s.(bp := s.bp / 2, dx := dx, af := s.dx % 16 == 0);
    var bit := s.bp % 2 == 1;
    if dx == 0 then
      var (v, m) := Rw(s.mem, s.ds, s.si);
      (bit, s1.(mem := m, bp := WordOf(v.0, v.1), si := (s.si + 2) % 0x1_0000, dx := 16))
    else (bit, s1)
  }

  function LoadByte(s: State): (r: (Byte, State))
    requires s.Valid()
    ensures r.1.Valid()
  {
    var (v, m) := Rb(s.mem, s.ds, s.si);
    (v, s.(mem := m, si := (s.si + 1) % 0x1_0000))
  }

  function LoadWord(s: State): (r: ((Byte, Byte), State))
    requires s.Valid()
    ensures r.1.Valid()
  {
    var (v, m) := Rw(s.mem, s.ds, s.si);
    (v, s.(mem := m, si := (s.si + 2) % 0x1_0000))
  }

  /** `cx` bytes copied one at a time from ES:(BX+DI) to ES:DI. */
  function CopyBytes(m: Mem, es: nat, bx: nat, di: nat, cx: nat): (r: Mem)
    requires m.Valid()
    ensures r.Valid()
    decreases cx
  {
    if cx == 0 || m.raised then m
    else
      var (v, m1) := Rb(m, es, bx + di);
      CopyBytes(Wb(m1, es, di, v), es, bx, (di + 1) % 0x1_0000, cx - 1)
  }

  function CopyOp(s: State, cx: nat): (r: Outcome)
    requires s.Valid()
    ensures r.s.Valid()
  {
    var m := CopyBytes(s.mem, s.es, s.bx, s.di, cx);
    if m.raised then Raised(s.(mem := m)) else Again(s.(mem := m, di := (s.di + cx) % 0x1_0000))
  }

  /** Count byte 1: move the high part of both offsets into the segments. */
  function Rebase(s: State): (r: State)
    requires s.Valid()
    ensures r.Valid()
  {
    s.(es := (s.es + s.di / 16 - 0x200) % 0x1_0000, di := s.di % 16 + 0x2000,
       ds := (s.ds + s.si / 16) % 0x1_0000, si := s.si % 16, bx := s.si)
  }

  function LiteralOp(s: State): (r: Outcome)
    requires s.Valid()
    ensures r.s.Valid()
  {
    var (v, s1) := LoadByte(s);
    var m := Wb(s1.mem, s.es, s.di, v);
    if m.raised then Raised(s.(mem := m)) else Again(s1.(mem := m, di := (s.di + 1) % 0x1_0000))
  }

  function ShortOp(s: State): (r: Outcome)
    requires s.Valid()
    ensures r.s.Valid()
  {
    var (b1, s1) := NextBit(s);
    var (b2, s2) := NextBit(s1);
    var (v, s3) := LoadByte(s2);
    CopyOp(s3.(bx := 0xFF00 + v), 2 * BoolNat(b1) + BoolNat(b2) + 2)
  }

  function BoolNat(b: bool): nat {
    if b then 1 else 0
  }

  function LongOp(s: State): (r: Outcome)
    requires s.Valid()
    ensures r.s.Valid()
  {
    var (w, s1) := LoadWord(s);
    var s2 := s1.(bx := (w.1 / 8 + 0xE0) * 256 + w.0);
    var ah := w.1 % 8;
    if ah != 0 then CopyOp(s2, ah + 2)
    else
      var (count, s3) := LoadByte(s2);
      if count == 0 then Finished(s3)
      else if count == 1 then Again(Rebase(s3))
      else CopyOp(s3, count + 1)
  }

  /** One trip round the loop. */
  function Op(s: State): (r: Outcome)
    requires s.Valid()
    ensures r.s.Valid()
  {
    var (b0, s0) := NextBit(s);
    if b0 then LiteralOp(s0)
    else
      var (b1, s1) := NextBit(s0);
      if b1 then LongOp(s1) else ShortOp(s1)
  }

  /** The loop with its operation limit. */
  function Run(s: State, maxOps: nat): (r: Outcome)
    requires s.Valid()
    ensures r.s.Valid() && !r.Again?
    decreases maxOps
  {
    if maxOps == 0 then TooManyOps(s)
    else
      var r := Op(s);
      if r.Again? then Run(r.s, maxOps - 1) else r
  }

  // ---- where the stream and the output lie ------------------------------------------

  /** Reads and writes in [lo, hi) never meet the planar aperture. */
  predicate Plain(m: Mem, lo: nat, hi: nat) {
    m.ega.planar ==> hi <= EGA_CPU_APERTURE || lo >= EGA_CPU_APERTURE + EGA_PLANE_WINDOW
  }

  /** `bytes` stand at linear address `p`. */
  predicate StandsAt(m: Mem, p: nat, bytes: seq<Byte>)
    requires m.Valid()
  {
    p + |bytes| <= CPU_MEM_SIZE && m.data[p..p + |bytes|] == bytes && Plain(m, p, p + |bytes|)
  }

  /** The reader's view: `items` are next, carried by `bytes` at DS:SI and the flags still in BP. */
  predicate Reading(s: State, items: seq<Item>, bytes: seq<Byte>)
    requires s.Valid()
  {
    1 <= s.dx <= 16 && Agrees(s.bp, items, s.dx) && Carries(bytes, items, s.dx)
    && StandsAt(s.mem, Linear(s.ds, s.si), bytes)
  }

  /** SI does not pass the end of its segment while the next `n` bytes are read. */
  predicate Ahead(s: State, n: nat) {
    s.si + n < 0x1_0000
  }

  lemma StandsTail(m: Mem, p: nat, bytes: seq<Byte>, n: nat)
    requires m.Valid() && StandsAt(m, p, bytes) && n <= |bytes|
    ensures StandsAt(m, p + n, bytes[n..])
  {
    assert m.data[p + n..p + |bytes|] == m.data[p..p + |bytes|][n..];
  }

  lemma StandsInside(m: Mem, p: nat, bytes: seq<Byte>)
    requires m.Valid() && StandsAt(m, p, bytes)
    ensures p + |bytes| <= CPU_MEM_SIZE
  {
  }

  lemma NothingStands(m: Mem, bytes: seq<Byte>)
    requires m.Valid() && bytes == []
    ensures StandsAt(m, 0, bytes)
  {
  }

  lemma Advance(s: State, bytes: seq<Byte>, n: nat)
    requires s.Valid() && StandsAt(s.mem, Linear(s.ds, s.si), bytes) && n <= |bytes| && Ahead(s, n)
    ensures var s' := s.(si := (s.si + n) % 0x1_0000);
            s'.si == s.si + n && StandsAt(s'.mem, Linear(s'.ds, s'.si), bytes[n..])
  {
    hide Linear, StandsAt, Plain;
    var p := Linear(s.ds, s.si);
    AdvanceLinear(s.ds, s.si, n);
    StandsInside(s.mem, p, bytes);
    StandsTail(s.mem, p, bytes, n);
    if p + n == CPU_MEM_SIZE {
      NothingStands(s.mem, bytes[n..]);
    }
  }

  lemma AdvanceLinear(seg: nat, off: nat, n: nat)
    requires off + n < 0x1_0000
    ensures Linear(seg, off + n) == (Linear(seg, off) + n) % CPU_MEM_SIZE
  {
    var a := seg % 0x1_0000 * 16 + off;
    assert Linear(seg, off) == if a < CPU_MEM_SIZE then a else a - CPU_MEM_SIZE;
  }

  // ---- the reader -------------------------------------------------------------------

  lemma ReadByte(s: State, bytes: seq<Byte>)
    requires s.Valid() && StandsAt(s.mem, Linear(s.ds, s.si), bytes) && |bytes| >= 1
    ensures Rb(s.mem, s.ds, s.si) == (bytes[0], s.mem)
  {
    hide Linear;
    var p := Linear(s.ds, s.si);
    assert s.mem.data[p..p + |bytes|][0] == s.mem.data[p];
  }

  lemma ReadWord(s: State, bytes: seq<Byte>)
    requires s.Valid() && StandsAt(s.mem, Linear(s.ds, s.si), bytes) && |bytes| >= 2
    ensures Rw(s.mem, s.ds, s.si) == ((bytes[0], bytes[1]), s.mem)
  {
    hide Linear;
    var p := Linear(s.ds, s.si);
    assert s.mem.data[p..p + |bytes|][0] == s.mem.data[p];
    assert s.mem.data[p..p + |bytes|][1] == s.mem.data[p + 1];
  }

  /** `s1` is `s` after the reader has taken the first `k` items off the stream. */
  predicate Took(s: State, s1: State, items: seq<Item>, bytes: seq<Byte>, k: nat)
    requires s.Valid() && 1 <= s.dx <= 16 && k <= |items|
  {
    var n := Consumed(items[..k], s.dx);
    n <= |bytes| && s1.Valid() && Reading(s1, items[k..], bytes[n..])
    && s1 == s.(bp := s1.bp, dx := LeftAfter(items[..k], s.dx), si := s.si + n, af := s1.af)
  }

  lemma ConsumedOne(items: seq<Item>, left: nat)
    requires items != [] && 1 <= left <= 16
    ensures Consumed(items[..1], left) == if items[0].Octet? then 1 else if left > 1 then 0 else 2
    ensures LeftAfter(items[..1], left) == if items[0].Octet? then left else if left > 1 then left - 1 else 16
  {
    assert items[..1][1..] == [];
  }

  lemma ConsumedTwo(items: seq<Item>, left: nat)
    requires |items| >= 2 && items[0].Octet? && items[1].Octet? && 1 <= left <= 16
    ensures Consumed(items[..2], left) == 2 && LeftAfter(items[..2], left) == left
  {
    ConsumedAppend(items[..1], items[1..][..1], left);
    assert items[..2] == items[..1] + items[1..][..1];
    ConsumedOne(items, left);
    ConsumedOne(items[1..], left);
  }

  lemma TakeFlag(s: State, items: seq<Item>, bytes: seq<Byte>)
    requires s.Valid() && Reading(s, items, bytes) && items != [] && items[0].Flag?
    requires Ahead(s, Consumed(items[..1], s.dx))
    ensures var (b, s') := NextBit(s); b == items[0].b && Took(s, s', items, bytes, 1)
  {
    hide Linear, StandsAt;
    ConsumedOne(items, s.dx);
    if s.dx > 1 {
      assert bytes[0..] == bytes;
      assert Reading(NextBit(s).1, items[1..], bytes);
    } else {
      ReadWord(s, bytes);
      Advance(s, bytes, 2);
      assert Reading(NextBit(s).1, items[1..], bytes[2..]);
    }
  }

  lemma TakeOctet(s: State, items: seq<Item>, bytes: seq<Byte>)
    requires s.Valid() && Reading(s, items, bytes) && items != [] && items[0].Octet?
    requires Ahead(s, Consumed(items[..1], s.dx))
    ensures var (v, s') := LoadByte(s); v == items[0].v && Took(s, s', items, bytes, 1)
  {
    hide Linear, StandsAt;
    ConsumedOne(items, s.dx);
    ReadByte(s, bytes);
    Advance(s, bytes, 1);
    assert Reading(LoadByte(s).1, items[1..], bytes[1..]);
  }

  lemma TakeTwoOctets(s: State, items: seq<Item>, bytes: seq<Byte>)
    requires s.Valid() && Reading(s, items, bytes) && |items| >= 2 && items[0].Octet? && items[1].Octet?
    requires Ahead(s, Consumed(items[..2], s.dx))
    ensures var (w, s') := LoadWord(s); w == (items[0].v, items[1].v) && Took(s, s', items, bytes, 2)
  {
    hide Linear, StandsAt;
    ConsumedTwo(items, s.dx);
    assert items[1..][0] == items[1] && items[1..][1..] == items[2..];
    assert Carries(bytes[1..], items[1..], s.dx) && Agrees(s.bp, items[1..], s.dx);
    assert bytes[1..][1..] == bytes[2..] && bytes[1..][0] == bytes[1];
    ReadWord(s, bytes);
    Advance(s, bytes, 2);
    assert Reading(LoadWord(s).1, items[2..], bytes[2..]);
  }

  lemma {:induction false} ConsumedAppend(a: seq<Item>, b: seq<Item>, left: nat)
    requires 1 <= left <= 16
    ensures Consumed(a + b, left) == Consumed(a, left) + Consumed(b, LeftAfter(a, left))
    ensures LeftAfter(a + b, left) == LeftAfter(b, LeftAfter(a, left))
    decreases |a|
  {
    if a == [] {
      assert a + b == b;
    } else {
      assert (a + b)[1..] == a[1..] + b;
      ConsumedAppend(a[1..], b, if a[0].Octet? then left else if left > 1 then left - 1 else 16);
    }
  }

  lemma TookThen(s: State, s1: State, s2: State, items: seq<Item>, bytes: seq<Byte>, k: nat, j: nat)
    requires s.Valid() && 1 <= s.dx <= 16 && k + j <= |items| && Took(s, s1, items, bytes, k)
    requires Took(s1, s2, items[k..], bytes[Consumed(items[..k], s.dx)..], j)
    ensures Took(s, s2, items, bytes, k + j)
  {
    hide Consumed, LeftAfter, Reading;
    ConsumedAppend(items[..k], items[k..][..j], s.dx);
    assert items[..k + j] == items[..k] + items[k..][..j];
    assert items[k..][j..] == items[k + j..];
    var n, n' := Consumed(items[..k], s.dx), Consumed(items[k..][..j], s1.dx);
    assert bytes[n..][n'..] == bytes[n + n'..];
  }

  /** The next `n` items can be read: they are on the stream and SI stays in its segment. */
  predicate Open(s: State, items: seq<Item>, bytes: seq<Byte>, n: nat) {
    s.Valid() && 1 <= s.dx <= 16 && Reading(s, items, bytes) && n <= |items| && Ahead(s, Consumed(items[..n], s.dx))
  }

  lemma OpenValid(s: State, items: seq<Item>, bytes: seq<Byte>, n: nat)
    requires Open(s, items, bytes, n)
    ensures s.Valid() && 1 <= s.dx <= 16 && n <= |items|
  {
    hide Reading, Ahead, Consumed;
  }

  /** A token's room covers each of its parts. */
  lemma TookAhead(s: State, s1: State, items: seq<Item>, bytes: seq<Byte>, k: nat, j: nat, n: nat)
    requires Open(s, items, bytes, n) && k + j <= n && Took(s, s1, items, bytes, k)
    ensures 1 <= s1.dx <= 16 && Ahead(s1, Consumed(items[k..][..j], s1.dx))
  {
    hide Consumed, LeftAfter;
    var a, b, c := items[..k], items[k..k + j], items[k + j..n];
    assert items[..n] == a + b + c && items[k..][..j] == b;
    ConsumedAppend(a + b, c, s.dx);
    ConsumedAppend(a, b, s.dx);
  }

  lemma TookNothing(s: State, items: seq<Item>, bytes: seq<Byte>, n: nat)
    requires Open(s, items, bytes, n)
    ensures Took(s, s, items, bytes, 0)
  {
    assert items[..0] == [] && items[0..] == items && bytes[0..] == bytes;
  }

  lemma FlagAt(s: State, s1: State, items: seq<Item>, bytes: seq<Byte>, k: nat, n: nat)
    requires Open(s, items, bytes, n) && k < n && Took(s, s1, items, bytes, k) && items[k].Flag?
    ensures s1.Valid() && var (b, s2) := NextBit(s1); b == items[k].b && Took(s, s2, items, bytes, k + 1)
  {
    hide Consumed, LeftAfter, Reading, NextBit;
    TookAhead(s, s1, items, bytes, k, 1, n);
    TookReads(s, s1, items, bytes, k);
    TakeFlag(s1, items[k..], bytes[Consumed(items[..k], s.dx)..]);
    TookThen(s, s1, NextBit(s1).1, items, bytes, k, 1);
  }

  lemma OctetAt(s: State, s1: State, items: seq<Item>, bytes: seq<Byte>, k: nat, n: nat)
    requires Open(s, items, bytes, n) && k < n && Took(s, s1, items, bytes, k) && items[k].Octet?
    ensures s1.Valid() && var (v, s2) := LoadByte(s1); v == items[k].v && Took(s, s2, items, bytes, k + 1)
  {
    hide Consumed, LeftAfter, Reading, LoadByte;
    TookAhead(s, s1, items, bytes, k, 1, n);
    TookReads(s, s1, items, bytes, k);
    TakeOctet(s1, items[k..], bytes[Consumed(items[..k], s.dx)..]);
    TookThen(s, s1, LoadByte(s1).1, items, bytes, k, 1);
  }

  lemma TwoOctetsAt(s: State, s1: State, items: seq<Item>, bytes: seq<Byte>, k: nat, n: nat)
    requires Open(s, items, bytes, n) && k + 1 < n && Took(s, s1, items, bytes, k)
    requires items[k].Octet? && items[k + 1].Octet?
    ensures s1.Valid() && var (w, s2) := LoadWord(s1);
            w == (items[k].v, items[k + 1].v) && Took(s, s2, items, bytes, k + 2)
  {
    hide Consumed, LeftAfter, Reading, LoadWord;
    TookAhead(s, s1, items, bytes, k, 2, n);
    TookReads(s, s1, items, bytes, k);
    assert items[k..][1] == items[k + 1];
    TakeTwoOctets(s1, items[k..], bytes[Consumed(items[..k], s.dx)..]);
    TookThen(s, s1, LoadWord(s1).1, items, bytes, k, 2);
  }

  lemma TookReads(s: State, s1: State, items: seq<Item>, bytes: seq<Byte>, k: nat)
    requires s.Valid() && 1 <= s.dx <= 16 && k <= |items| && Took(s, s1, items, bytes, k)
    ensures Consumed(items[..k], s.dx) <= |bytes|
    ensures s1.Valid() && Reading(s1, items[k..], bytes[Consumed(items[..k], s.dx)..])
  {
  }

  // ---- the writer -------------------------------------------------------------------

  /** The memory with its first `|h|` bytes replaced by `h`. */
  function WithPrefix(m: Mem, h: seq<Byte>): (r: Mem)
    requires m.Valid() && |h| <= MEM_SIZE
    ensures r.Valid()
  {
    m.(data := h + m.data[|h|..])
  }

  /** The next `n` stores at ES:DI are ordinary, and so are all reads below them. */
  predicate Writable(m: Mem, es: nat, di: nat, n: nat)
    requires m.Valid()
  {
    !m.raised && di + n < 0x1_0000 && Linear(es, di) + n <= BIOS_ROM_BASE && Plain(m, 0, Linear(es, di) + n)
  }

  lemma BackLinear(es: nat, di: nat, dist: nat)
    requires dist <= di < 0x1_0000 && dist <= Linear(es, di)
    ensures Linear(es, 0x1_0000 - dist + di) == Linear(es, di) - dist
  {
    assert (0x1_0000 - dist + di) % 0x1_0000 == di - dist;
  }

  lemma WriteNext(m: Mem, es: nat, di: nat, v: Byte)
    requires m.Valid() && Writable(m, es, di, 1)
    ensures var o := Linear(es, di);
            Wb(m, es, di, v) == WithPrefix(m, m.data[..o] + [v]) && Linear(es, di + 1) == o + 1
  {
    hide Linear;
    var o := Linear(es, di);
    AdvanceLinear(es, di, 1);
    assert m.data[o := v] == m.data[..o] + [v] + m.data[o + 1..];
  }

  lemma PrefixOfPrefix(m: Mem, h: seq<Byte>, h': seq<Byte>)
    requires m.Valid() && |h| <= |h'| <= MEM_SIZE
    ensures WithPrefix(WithPrefix(m, h), h') == WithPrefix(m, h')
    ensures WithPrefix(m, h).data[..|h|] == h
  {
    assert (h + m.data[|h|..])[|h'|..] == m.data[|h'|..];
  }

  /** A match of `cx` bytes can be copied to linear address `o`: it reaches back to real bytes. */
  predicate Copyable(m: Mem, o: nat, dist: nat, cx: nat) {
    m.Valid() && !m.raised && 1 <= dist <= o && o + cx <= BIOS_ROM_BASE && Plain(m, 0, o + cx)
  }

  /** The memory after the match has been appended to the `o` bytes below it. */
  function Matched(m: Mem, o: nat, dist: nat, cx: nat): Mem
    requires Copyable(m, o, dist, cx)
  {
    WithPrefix(m, CopyMatch(m.data[..o], dist, cx))
  }

  /** The memory after its first byte. */
  function MatchedOnce(m: Mem, o: nat, dist: nat): (r: Mem)
    requires Copyable(m, o, dist, 1)
    ensures r.Valid()
  {
    WithPrefix(m, m.data[..o] + [m.data[o - dist]])
  }

  predicate Inbound(es: nat, di: nat, o: nat, dist: nat, cx: nat) {
    Linear(es, di) == o && dist <= di && di + cx < 0x1_0000
  }

  lemma CopyStep(m: Mem, es: nat, di: nat, o: nat, dist: nat, cx: nat)
    requires cx > 0 && Copyable(m, o, dist, cx) && Inbound(es, di, o, dist, cx)
    ensures Inbound(es, di + 1, o + 1, dist, cx - 1)
    ensures CopyBytes(m, es, 0x1_0000 - dist, di, cx)
            == CopyBytes(MatchedOnce(m, o, dist), es, 0x1_0000 - dist, di + 1, cx - 1)
  {
    hide Linear, Wb, WithPrefix;
    var v := m.data[o - dist];
    BackLinear(es, di, dist);
    assert Rb(m, es, 0x1_0000 - dist + di) == (v, m);
    WriteNext(m, es, di, v);
  }

  lemma MatchedOnceCopyable(m: Mem, o: nat, dist: nat, cx: nat)
    requires cx > 0 && Copyable(m, o, dist, cx)
    ensures Copyable(MatchedOnce(m, o, dist), o + 1, dist, cx - 1)
    ensures MatchedOnce(m, o, dist).data[..o + 1] == m.data[..o] + [m.data[o - dist]]
  {
    var h1 := m.data[..o] + [m.data[o - dist]];
    PrefixKeeps(m, h1);
    PrefixOfPrefix(m, h1, h1);
  }

  lemma MatchedStep(m: Mem, o: nat, dist: nat, cx: nat)
    requires cx > 0 && Copyable(m, o, dist, cx)
    requires Copyable(MatchedOnce(m, o, dist), o + 1, dist, cx - 1)
    ensures Matched(MatchedOnce(m, o, dist), o + 1, dist, cx - 1) == Matched(m, o, dist, cx)
  {
    hide WithPrefix, CopyMatch;
    var h := m.data[..o];
    var h1 := h + [m.data[o - dist]];
    assert h[o - dist] == m.data[o - dist];
    MatchStep(h, dist, cx);
    MatchedOnceCopyable(m, o, dist, cx);
    PrefixOfPrefix(m, h1, CopyMatch(h1, dist, cx - 1));
  }

  lemma CopyableOne(m: Mem, o: nat, dist: nat, cx: nat)
    requires cx > 0 && Copyable(m, o, dist, cx)
    ensures Copyable(m, o, dist, 1)
  {
  }

  lemma CopyNothing(m: Mem, es: nat, di: nat, o: nat, dist: nat)
    requires Copyable(m, o, dist, 0) && Inbound(es, di, o, dist, 0)
    ensures CopyBytes(m, es, 0x1_0000 - dist, di, 0) == Matched(m, o, dist, 0)
  {
    WholePrefix(m, o);
  }

  /** The copy loop appends exactly the LZ77 match, overlapping or not. */
  lemma {:induction false} CopyIsMatch(m: Mem, es: nat, di: nat, o: nat, dist: nat, cx: nat)
    requires Copyable(m, o, dist, cx) && Inbound(es, di, o, dist, cx)
    ensures CopyBytes(m, es, 0x1_0000 - dist, di, cx) == Matched(m, o, dist, cx)
    decreases cx
  {
    hide *;
    if cx == 0 {
      CopyNothing(m, es, di, o, dist);
    } else {
      CopyableOne(m, o, dist, cx);
      CopyStep(m, es, di, o, dist, cx);
      MatchedOnceCopyable(m, o, dist, cx);
      MatchedStep(m, o, dist, cx);
      CopyIsMatch(MatchedOnce(m, o, dist), es, di + 1, o + 1, dist, cx - 1);
    }
  }

  lemma MatchStep(h: seq<Byte>, dist: nat, len: nat)
    requires 1 <= dist <= |h| && len > 0
    ensures CopyMatch(h, dist, len) == CopyMatch(h + [h[|h| - dist]], dist, len - 1)
  {
  }

  lemma WholePrefix(m: Mem, o: nat)
    requires m.Valid() && o <= MEM_SIZE
    ensures WithPrefix(m, m.data[..o]) == m
  {
    assert m.data[..o] + m.data[o..] == m.data;
  }

  lemma PrefixKeeps(m: Mem, h: seq<Byte>)
    requires m.Valid() && |h| <= MEM_SIZE
    ensures var m' := WithPrefix(m, h); m'.ega == m.ega && m'.raised == m.raised && m'.watched == m.watched
  {
  }

  /** A stream outside the bytes written is undisturbed. */
  lemma Undisturbed(m: Mem, p: nat, bytes: seq<Byte>, o: nat, h: seq<Byte>)
    requires m.Valid() && StandsAt(m, p, bytes) && |h| <= MEM_SIZE
    requires o <= |h| && h[..o] == m.data[..o] && (p + |bytes| <= o || |h| <= p)
    ensures StandsAt(WithPrefix(m, h), p, bytes)
  {
    var d := WithPrefix(m, h).data;
    if p + |bytes| <= o {
      assert d[p..p + |bytes|] == h[p..p + |bytes|];
      assert h[p..p + |bytes|] == h[..o][p..p + |bytes|];
      assert m.data[p..p + |bytes|] == m.data[..o][p..p + |bytes|];
    } else {
      assert d[p..p + |bytes|] == m.data[p..p + |bytes|];
    }
  }

  // ---- one token ------------------------------------------------------------------------

  /** Offsets after a token: only the normalise marker changes them other than by advancing. */
  function NextSi(t: Token, si: nat): nat {
    if t.Normalise? then si % 16 else si
  }

  function NextDi(t: Token, di: nat): nat {
    if t.Normalise? then di % 16 + 0x2000 else di + t.Length()
  }

  /** Everything one token needs at linear addresses `p` (stream) and `o` (output). */
  predicate Ready(s: State, t: Token, rest: seq<Item>, bytes: seq<Byte>, p: nat, o: nat) {
    s.Valid() && 1 <= s.dx <= 16 && t.Valid() && Reading(s, Items(t) + rest, bytes)
    && Linear(s.ds, s.si) == p && Linear(s.es, s.di) == o
    && Ahead(s, Consumed(Items(t), s.dx)) && s.di + t.Length() < 0x1_0000
    && (t.IsMatch() ==> t.dist <= s.di && t.dist <= o)
    && !s.mem.raised && o + t.Length() <= BIOS_ROM_BASE && Plain(s.mem, 0, o + t.Length())
    && Spares(p, |bytes|, Consumed(Items(t), s.dx), o, t.Length())
  }

  /** Of the `k` stream bytes at `p`, storing `len` bytes at `o` spares those after the first `n`. */
  predicate Spares(p: nat, k: nat, n: nat, o: nat, len: nat) {
    len == 0 || k <= n || p + k <= o || o + len <= p + n
  }

  /** The state one token leaves. */
  predicate Done(s: State, s': State, t: Token, rest: seq<Item>, bytes: seq<Byte>, o: nat)
    requires s.Valid() && 1 <= s.dx <= 16 && t.Valid() && o <= MEM_SIZE
    requires t.IsMatch() ==> 1 <= t.dist <= o
  {
    var n := Consumed(Items(t), s.dx);
    var h := Expand1(t, s.mem.data[..o]);
    n <= |bytes| && |h| <= MEM_SIZE && s'.Valid() && s'.mem == WithPrefix(s.mem, h)
    && Reading(s', rest, bytes[n..]) && s'.dx == LeftAfter(Items(t), s.dx)
    && s'.si == NextSi(t, s.si + n) && s'.di == NextDi(t, s.di)
    && Linear(s'.ds, s'.si) == Linear(s.ds, s.si + n) && Linear(s'.es, s'.di) == (o + t.Length()) % CPU_MEM_SIZE
  }

  lemma LiteralItems(s: State, b: Byte, items: seq<Item>, bytes: seq<Byte>)
    requires Open(s, items, bytes, 2) && items[..2] == Items(Literal(b))
    ensures s.Valid() && |items| >= 2 && items[0] == Flag(true) && items[1] == Octet(b)
  {
    hide Consumed, LeftAfter, Reading;
    assert items[0] == items[..2][0] && items[1] == items[..2][1];
  }

  /** The flags and bytes of a literal. */
  lemma ReadLiteral(s: State, b: Byte, items: seq<Item>, bytes: seq<Byte>)
    requires Open(s, items, bytes, 2) && items[..2] == Items(Literal(b))
    ensures NextBit(s).0
    ensures var (v, s2) := LoadByte(NextBit(s).1); v == b && Took(s, s2, items, bytes, 2)
  {
    hide *;
    LiteralItems(s, b, items, bytes);
    var s1 := NextBit(s).1;
    TookNothing(s, items, bytes, 2);
    FlagAt(s, s, items, bytes, 0, 2);
    OctetAt(s, s1, items, bytes, 1, 2);
  }

  lemma ReadTwoFlags(s: State, s0: State, items: seq<Item>, bytes: seq<Byte>, k: nat, n: nat)
    requires Open(s, items, bytes, n) && k + 1 < n && Took(s, s0, items, bytes, k)
    requires items[k].Flag? && items[k + 1].Flag?
    ensures s0.Valid()
    ensures var (b0, s1) := NextBit(s0);
            var (b1, s2) := NextBit(s1);
            b0 == items[k].b && b1 == items[k + 1].b && Took(s, s2, items, bytes, k + 2)
  {
    FlagAt(s, s0, items, bytes, k, n);
    hide Open, NextBit, Took;
    FlagAt(s, NextBit(s0).1, items, bytes, k + 1, n);
  }

  /** The length bits and the offset byte of a short match. */
  lemma ReadShortTail(s: State, s2: State, items: seq<Item>, bytes: seq<Byte>)
    requires Open(s, items, bytes, 5) && Took(s, s2, items, bytes, 2)
    requires items[2].Flag? && items[3].Flag? && items[4].Octet?
    ensures s2.Valid()
    ensures var (b2, s3) := NextBit(s2);
            var (b3, s4) := NextBit(s3);
            var (v, s5) := LoadByte(s4);
            b2 == items[2].b && b3 == items[3].b && v == items[4].v && Took(s, s5, items, bytes, 5)
  {
    hide *;
    OpenValid(s, items, bytes, 5);
    ReadTwoFlags(s, s2, items, bytes, 2, 5);
    OctetAt(s, NextBit(NextBit(s2).1).1, items, bytes, 4, 5);
  }

  /** The flags and the first two bytes shared by every long form. */
  lemma ReadLongHead(s: State, items: seq<Item>, bytes: seq<Byte>, n: nat)
    requires n >= 4 && Open(s, items, bytes, n)
    requires items[0].Flag? && items[1].Flag? && items[2].Octet? && items[3].Octet?
    ensures var (b0, s1) := NextBit(s);
            var (b1, s2) := NextBit(s1);
            var (w, s3) := LoadWord(s2);
            b0 == items[0].b && b1 == items[1].b && w == (items[2].v, items[3].v) && Took(s, s3, items, bytes, 4)
  {
    TookNothing(s, items, bytes, n);
    hide Open, NextBit, LoadWord, Took;
    ReadTwoFlags(s, s, items, bytes, 0, n);
    TwoOctetsAt(s, NextBit(NextBit(s).1).1, items, bytes, 2, n);
  }

  /** Everything but a normalise marker: advance, and put the expansion in place. */
  function Stepped(s: State, s1: State, t: Token, o: nat, bx: nat): State
    requires s.Valid() && o + t.Length() <= MEM_SIZE && (t.IsMatch() ==> 1 <= t.dist <= o)
  {
    s1.(mem := WithPrefix(s.mem, Expand1(t, s.mem.data[..o])), di := s.di + t.Length(), bx := bx)
  }

  lemma Finish(s: State, s1: State, t: Token, rest: seq<Item>, bytes: seq<Byte>, p: nat, o: nat, bx: nat)
    requires Ready(s, t, rest, bytes, p, o) && !t.Normalise? && (t.IsMatch() ==> 1 <= t.dist) && bx < 0x1_0000
    requires Took(s, s1, Items(t) + rest, bytes, |Items(t)|)
    ensures Done(s, Stepped(s, s1, t, o, bx), t, rest, bytes, o)
  {
    hide Linear, Agrees, Carries, StandsAt, WithPrefix, Expand1, Consumed, LeftAfter, Items;
    var items, k := Items(t) + rest, |Items(t)|;
    var h := Expand1(t, s.mem.data[..o]);
    assert items[..k] == Items(t) && items[k..] == rest;
    var n := Consumed(Items(t), s.dx);
    AdvanceLinear(s.es, s.di, t.Length());
    AdvanceLinear(s.ds, s.si, n);
    StaysClear(s, s1, bytes, n, o, h);
  }

  lemma StaysClear(s: State, s1: State, bytes: seq<Byte>, n: nat, o: nat, h: seq<Byte>)
    requires s.Valid() && s1.Valid() && s1.mem == s.mem && n <= |bytes|
    requires StandsAt(s.mem, Linear(s.ds, s.si), bytes) && StandsAt(s.mem, Linear(s1.ds, s1.si), bytes[n..])
    requires Linear(s1.ds, s1.si) == (Linear(s.ds, s.si) + n) % CPU_MEM_SIZE
    requires o <= |h| <= MEM_SIZE && h[..o] == s.mem.data[..o]
    requires Spares(Linear(s.ds, s.si), |bytes|, n, o, |h| - o)
    ensures StandsAt(WithPrefix(s.mem, h), Linear(s1.ds, s1.si), bytes[n..])
  {
    hide Linear;
    var p, p1 := Linear(s.ds, s.si), Linear(s1.ds, s1.si);
    if |h| == o {
      WholePrefix(s.mem, o);
    } else if n < |bytes| {
      assert p1 == p + n;
      Undisturbed(s.mem, p1, bytes[n..], o, h);
    } else {
      assert bytes[n..] == [];
    }
  }

  lemma ReadyOpen(s: State, t: Token, rest: seq<Item>, bytes: seq<Byte>, p: nat, o: nat)
    requires Ready(s, t, rest, bytes, p, o)
    ensures Open(s, Items(t) + rest, bytes, |Items(t)|)
    ensures (Items(t) + rest)[..|Items(t)|] == Items(t)
    ensures forall i :: 0 <= i < |Items(t)| ==> (Items(t) + rest)[i] == Items(t)[i]
  {
    hide Items, Linear;
    assert (Items(t) + rest)[..|Items(t)|] == Items(t);
  }

  /** Reading leaves memory, segments, DI and BX alone. */
  lemma TookFrame(s: State, s1: State, items: seq<Item>, bytes: seq<Byte>, k: nat)
    requires s.Valid() && 1 <= s.dx <= 16 && k <= |items| && Took(s, s1, items, bytes, k)
    ensures s1.Valid() && s1.mem == s.mem && s1.ds == s.ds && s1.es == s.es && s1.di == s.di && s1.bx == s.bx
  {
  }

  lemma LiteralReads(s: State, t: Token, rest: seq<Item>, bytes: seq<Byte>, p: nat, o: nat)
    requires t.Literal? && Ready(s, t, rest, bytes, p, o)
    ensures var (b0, s0) := NextBit(s);
            var (v, s1) := LoadByte(s0);
            b0 && v == t.b && Took(s, s1, Items(t) + rest, bytes, |Items(t)|)
  {
    assert Items(t) == Items(Literal(t.b)) && |Items(t)| == 2;
    ReadyOpen(s, t, rest, bytes, p, o);
    hide *;
    ReadLiteral(s, t.b, Items(t) + rest, bytes);
  }

  lemma LiteralIsStepped(s: State, s0: State, t: Token, o: nat)
    requires s.Valid() && s0.Valid() && t.Literal? && Linear(s.es, s.di) == o && Writable(s.mem, s.es, s.di, 1)
    requires var s1 := LoadByte(s0).1;
             LoadByte(s0).0 == t.b && s1.mem == s.mem && s1.es == s.es && s1.di == s.di && s1.bx == s.bx
             && s0.es == s.es && s0.di == s.di
    ensures LiteralOp(s0) == Again(Stepped(s, LoadByte(s0).1, t, o, s.bx))
  {
    hide Linear, LoadByte, Wb, WithPrefix, Plain;
    WriteNext(s.mem, s.es, s.di, t.b);
    PrefixKeeps(s.mem, s.mem.data[..o] + [t.b]);
  }

  lemma LoadFrame(s0: State)
    requires s0.Valid()
    ensures var s1 := LoadByte(s0).1; s1.es == s0.es && s1.di == s0.di
  {
  }

  lemma ReadyWritable(s: State, t: Token, rest: seq<Item>, bytes: seq<Byte>, p: nat, o: nat)
    requires t.Literal? && Ready(s, t, rest, bytes, p, o)
    ensures Writable(s.mem, s.es, s.di, 1) && Linear(s.es, s.di) == o
  {
    hide Linear, Reading, Items;
  }

  lemma OpLiteral(s: State, t: Token, rest: seq<Item>, bytes: seq<Byte>, p: nat, o: nat)
    requires t.Literal? && Ready(s, t, rest, bytes, p, o)
    ensures Op(s).Again? && Done(s, Op(s).s, t, rest, bytes, o)
  {
    hide Linear, Reading, Took, NextBit, LoadByte, Done, LiteralOp, Stepped, Items, Consumed, Writable;
    var s0 := NextBit(s).1;
    var s1 := LoadByte(s0).1;
    LiteralReads(s, t, rest, bytes, p, o);
    TookFrame(s, s1, Items(t) + rest, bytes, |Items(t)|);
    LoadFrame(s0);
    ReadyWritable(s, t, rest, bytes, p, o);
    hide Ready;
    LiteralIsStepped(s, s0, t, o);
    Finish(s, s1, t, rest, bytes, p, o, s.bx);
  }

  lemma ReadyCopyable(s: State, t: Token, rest: seq<Item>, bytes: seq<Byte>, p: nat, o: nat)
    requires t.IsMatch() && Ready(s, t, rest, bytes, p, o)
    ensures Copyable(s.mem, o, t.dist, t.len) && Inbound(s.es, s.di, o, t.dist, t.len)
  {
    hide Linear, Reading, Items;
  }

  lemma CopyIsStepped(s: State, s1: State, t: Token, o: nat)
    requires s.Valid() && s1.Valid() && s1.mem == s.mem && s1.es == s.es && s1.di == s.di
    requires t.IsMatch() && t.dist < 0x1_0000
    requires Copyable(s.mem, o, t.dist, t.len) && Inbound(s.es, s.di, o, t.dist, t.len)
    ensures var bx := 0x1_0000 - t.dist; CopyOp(s1.(bx := bx), t.len) == Again(Stepped(s, s1, t, o, bx))
  {
    hide Linear, CopyBytes, WithPrefix, CopyMatch;
    CopyIsMatch(s.mem, s.es, s.di, o, t.dist, t.len);
    PrefixKeeps(s.mem, CopyMatch(s.mem.data[..o], t.dist, t.len));
  }

  /** A copy of the right bytes finishes a match token. */
  lemma CopyFinishes(s: State, s1: State, t: Token, rest: seq<Item>, bytes: seq<Byte>, p: nat, o: nat)
    requires t.IsMatch() && Ready(s, t, rest, bytes, p, o) && Took(s, s1, Items(t) + rest, bytes, |Items(t)|)
    ensures s1.Valid() && 1 <= t.dist
    ensures var r := CopyOp(s1.(bx := 0x1_0000 - t.dist), t.len);
            r.Again? && Done(s, r.s, t, rest, bytes, o)
  {
    hide Linear, Reading, Items, CopyOp, Done, Stepped, Consumed, LeftAfter;
    ReadyCopyable(s, t, rest, bytes, p, o);
    TookFrame(s, s1, Items(t) + rest, bytes, |Items(t)|);
    hide Ready, Took;
    CopyIsStepped(s, s1, t, o);
    Finish(s, s1, t, rest, bytes, p, o, 0x1_0000 - t.dist);
  }

  /** The flag bits of a short match lead to its copy. */
  lemma ShortDispatch(s: State)
    requires s.Valid()
    ensures var (b0, s1) := NextBit(s);
            var (b1, s2) := NextBit(s1);
            !b0 && !b1 ==> Op(s) == ShortOp(s2)
  {
  }

  lemma ShortReads(s: State, t: Token, rest: seq<Item>, bytes: seq<Byte>, p: nat, o: nat)
    requires t.Short? && Ready(s, t, rest, bytes, p, o)
    ensures var items := Items(t) + rest;
            var (b0, s1) := NextBit(s);
            var (b1, s2) := NextBit(s1);
            !b0 && !b1 && Open(s, items, bytes, 5) && Took(s, s2, items, bytes, 2)
  {
    var items := Items(t) + rest;
    ReadyOpen(s, t, rest, bytes, p, o);
    TookNothing(s, items, bytes, 5);
    hide NextBit, Took, Ready, Reading, Open;
    ReadTwoFlags(s, s, items, bytes, 0, 5);
  }

  lemma ShortTail(s: State, s2: State, t: Token, rest: seq<Item>, bytes: seq<Byte>)
    requires t.Short? && t.Valid() && Open(s, Items(t) + rest, bytes, 5) && Took(s, s2, Items(t) + rest, bytes, 2)
    ensures s2.Valid() && Took(s, ShortState(s2), Items(t) + rest, bytes, 5)
    ensures ShortOp(s2) == CopyOp(ShortState(s2).(bx := 0x1_0000 - t.dist), t.len)
  {
    hide NextBit, LoadByte, Took, Open, CopyOp;
    ReadShortTail(s, s2, Items(t) + rest, bytes);
  }

  /** The reader after the length bits and offset byte of a short match. */
  function ShortState(s2: State): (r: State)
    requires s2.Valid()
    ensures r.Valid()
  {
    LoadByte(NextBit(NextBit(s2).1).1).1
  }

  lemma OpShort(s: State, t: Token, rest: seq<Item>, bytes: seq<Byte>, p: nat, o: nat)
    requires t.Short? && Ready(s, t, rest, bytes, p, o)
    ensures Op(s).Again? && Done(s, Op(s).s, t, rest, bytes, o)
  {
    assert |Items(t)| == 5 && t.dist < 0x1_0000 && t.Valid();
    ShortDispatch(s);
    hide *;
    ShortReads(s, t, rest, bytes, p, o);
    ShortTail(s, NextBit(NextBit(s).1).1, t, rest, bytes);
    CopyFinishes(s, ShortState(NextBit(NextBit(s).1).1), t, rest, bytes, p, o);
  }

  // ---- long forms ---------------------------------------------------------------------

  predicate IsLongForm(t: Token) {
    t.Long? || t.LongByte? || t.Normalise? || t.End?
  }

  /** The two bytes after the flags of a long form. */
  function LowHigh(t: Token): (nat, nat)
    requires t.Valid() && IsLongForm(t)
  {
    if t.IsMatch() then ((8192 - t.dist) % 256, (8192 - t.dist) / 256 * 8 + if t.Long? then t.len - 2 else 0)
    else (t.lo, t.hi)
  }

  lemma LongDispatch(s: State)
    requires s.Valid()
    ensures var (b0, s1) := NextBit(s);
            var (b1, s2) := NextBit(s1);
            !b0 && b1 ==> Op(s) == LongOp(s2)
  {
  }

  lemma LongItems(t: Token)
    requires t.Valid() && IsLongForm(t)
    ensures |Items(t)| == if t.Long? then 4 else 5
    ensures Items(t)[0] == Flag(false) && Items(t)[1] == Flag(true)
    ensures LowHigh(t).0 < 256 && LowHigh(t).1 < 256
    ensures Items(t)[2] == Octet(LowHigh(t).0) && Items(t)[3] == Octet(LowHigh(t).1)
  {
  }

  lemma LongReads(s: State, t: Token, rest: seq<Item>, bytes: seq<Byte>, p: nat, o: nat)
    requires IsLongForm(t) && Ready(s, t, rest, bytes, p, o)
    ensures var items := Items(t) + rest;
            var (b0, s1) := NextBit(s);
            var (b1, s2) := NextBit(s1);
            var (w, s3) := LoadWord(s2);
            !b0 && b1 && w == LowHigh(t) && Open(s, items, bytes, |Items(t)|) && Took(s, s3, items, bytes, 4)
  {
    LongItems(t);
    ReadyOpen(s, t, rest, bytes, p, o);
    hide NextBit, LoadWord, Took, Ready, Reading, Open, Items;
    ReadLongHead(s, Items(t) + rest, bytes, |Items(t)|);
  }

  /** BX after the code's shifting is the two's complement of the distance. */
  lemma LongBx(t: Token)
    requires t.Valid() && (t.Long? || t.LongByte?)
    ensures var (lo, hi) := LowHigh(t);
            (hi / 8 + 0xE0) * 256 + lo == 0x1_0000 - t.dist && hi % 8 == if t.Long? then t.len - 2 else 0
  {
    var v := 8192 - t.dist;
    assert v == v / 256 * 256 + v % 256 && v / 256 < 32;
  }

  lemma LoadKeepsBx(s: State, bx: nat)
    requires s.Valid() && bx < 0x1_0000
    ensures LoadByte(s.(bx := bx)).0 == LoadByte(s).0
    ensures LoadByte(s.(bx := bx)).1 == LoadByte(s).1.(bx := bx)
  {
  }

  lemma LongOpIsCopy(s2: State, t: Token)
    requires s2.Valid() && t.Long? && t.Valid() && LoadWord(s2).0 == LowHigh(t)
    ensures LongOp(s2) == CopyOp(LoadWord(s2).1.(bx := 0x1_0000 - t.dist), t.len)
  {
    hide LoadWord, CopyOp, LowHigh;
    LongBx(t);
  }

  lemma OpLong(s: State, t: Token, rest: seq<Item>, bytes: seq<Byte>, p: nat, o: nat)
    requires t.Long? && Ready(s, t, rest, bytes, p, o)
    ensures Op(s).Again? && Done(s, Op(s).s, t, rest, bytes, o)
  {
    assert IsLongForm(t) && t.Valid() && t.dist < 0x1_0000;
    LongItems(t);
    LongDispatch(s);
    hide *;
    var s2 := NextBit(NextBit(s).1).1;
    LongReads(s, t, rest, bytes, p, o);
    LongOpIsCopy(s2, t);
    CopyFinishes(s, LoadWord(s2).1, t, rest, bytes, p, o);
  }

  /** The count byte of the five-item long forms. */
  lemma CountReads(s: State, t: Token, rest: seq<Item>, bytes: seq<Byte>, s3: State)
    requires t.Valid() && IsLongForm(t) && !t.Long?
    requires Open(s, Items(t) + rest, bytes, 5) && Took(s, s3, Items(t) + rest, bytes, 4)
    ensures s3.Valid() && |Items(t)| == 5
    ensures var (c, s4) := LoadByte(s3);
            c == (if t.LongByte? then t.len - 1 else if t.Normalise? then 1 else 0)
            && Took(s, s4, Items(t) + rest, bytes, 5)
  {
    LongItems(t);
    assert (Items(t) + rest)[4] == Items(t)[4];
    assert Items(t)[4] == Octet(if t.LongByte? then t.len - 1 else if t.Normalise? then 1 else 0);
    hide LoadByte, Took, Items, Open;
    OctetAt(s, s3, Items(t) + rest, bytes, 4, 5);
  }

  /** What a long form does once its count byte is known to be the next byte. */
  lemma LongOpOnCount(s2: State, lo: Byte, hi: Byte)
    requires s2.Valid() && LoadWord(s2).0 == (lo, hi) && hi % 8 == 0
    ensures var bx := (hi / 8 + 0xE0) * 256 + lo;
            var (c, s4) := LoadByte(LoadWord(s2).1);
            bx < 0x1_0000
            && LongOp(s2) == (if c == 0 then Finished(s4.(bx := bx))
                              else if c == 1 then Again(Rebase(s4.(bx := bx)))
                              else CopyOp(s4.(bx := bx), c + 1))
  {
    hide LoadWord, LoadByte, CopyOp, Rebase;
    LoadKeepsBx(LoadWord(s2).1, (hi / 8 + 0xE0) * 256 + lo);
  }

  lemma LongByteOpIsCopy(s2: State, t: Token)
    requires s2.Valid() && t.LongByte? && t.Valid() && LoadWord(s2).0 == LowHigh(t)
    requires LoadByte(LoadWord(s2).1).0 == t.len - 1
    ensures LongOp(s2) == CopyOp(LoadByte(LoadWord(s2).1).1.(bx := 0x1_0000 - t.dist), t.len)
  {
    hide LoadWord, LoadByte, CopyOp, LongOp, LowHigh;
    LongBx(t);
    LongOpOnCount(s2, LowHigh(t).0, LowHigh(t).1);
  }

  lemma OpLongByte(s: State, t: Token, rest: seq<Item>, bytes: seq<Byte>, p: nat, o: nat)
    requires t.LongByte? && Ready(s, t, rest, bytes, p, o)
    ensures Op(s).Again? && Done(s, Op(s).s, t, rest, bytes, o)
  {
    assert IsLongForm(t) && t.Valid() && t.dist < 0x1_0000;
    LongItems(t);
    LongDispatch(s);
    hide *;
    var s2 := NextBit(NextBit(s).1).1;
    LongReads(s, t, rest, bytes, p, o);
    CountReads(s, t, rest, bytes, LoadWord(s2).1);
    LongByteOpIsCopy(s2, t);
    CopyFinishes(s, LoadByte(LoadWord(s2).1).1, t, rest, bytes, p, o);
  }

  lemma SegmentMod(a: int, b: int)
    ensures (a % 0x1_0000 * 16 + b) % 0x10_0000 == (a * 16 + b) % 0x10_0000
  {
    var q := a / 0x1_0000;
    assert a * 16 + b == a % 0x1_0000 * 16 + b + 0x10_0000 * q;
  }

  lemma LinearRaw(seg: int, off: nat)
    requires 0 <= seg < 0x1_0000 && off < 0x1_0000
    ensures Linear(seg, off) == (seg * 16 + off) % 0x10_0000
  {
  }

  /** Sixteen offset bytes moved into the segment, `k` of them moved back. */
  lemma RebaseOne(seg: nat, off: nat, k: nat)
    requires seg < 0x1_0000 && off < 0x1_0000 && k <= 0x200
    ensures Linear((seg + off / 16 - k) % 0x1_0000, off % 16 + 16 * k) == Linear(seg, off)
  {
    var x, b := seg + off / 16 - k, off % 16 + 16 * k;
    LinearRaw(x % 0x1_0000, b);
    LinearRaw(seg, off);
    hide Linear;
    SegmentMod(x, b);
    assert x * 16 + b == seg * 16 + off;
  }

  /** Rebasing keeps both linear addresses modulo 2^20. */
  lemma RebaseKeepsAddresses(s: State)
    requires s.Valid()
    ensures Linear(Rebase(s).ds, Rebase(s).si) == Linear(s.ds, s.si)
    ensures Linear(Rebase(s).es, Rebase(s).di) == Linear(s.es, s.di)
    ensures Rebase(s).si < 16 && 0x2000 <= Rebase(s).di < 0x2010
  {
    hide Linear;
    RebaseOne(s.ds, s.si, 0);
    RebaseOne(s.es, s.di, 0x200);
  }

  lemma ReadingRebased(s: State, items: seq<Item>, bytes: seq<Byte>)
    requires s.Valid() && Reading(s, items, bytes)
    ensures Reading(Rebase(s), items, bytes)
  {
    RebaseKeepsAddresses(s);
    hide Linear, Agrees, Carries, StandsAt;
  }

  /** The reader after the five items of a marker. */
  lemma MarkerTaken(s: State, s4: State, t: Token, rest: seq<Item>, bytes: seq<Byte>)
    requires s.Valid() && 1 <= s.dx <= 16 && t.Valid() && Took(s, s4, Items(t) + rest, bytes, |Items(t)|)
    ensures var n := Consumed(Items(t), s.dx);
            n <= |bytes| && s4.Valid() && Reading(s4, rest, bytes[n..]) && s4.si == s.si + n
            && s4.dx == LeftAfter(Items(t), s.dx)
  {
    var k := |Items(t)|;
    assert (Items(t) + rest)[..k] == Items(t) && (Items(t) + rest)[k..] == rest;
    hide Reading, Consumed, LeftAfter, Items;
  }

  lemma NormaliseDone(s: State, s5: State, t: Token, rest: seq<Item>, bytes: seq<Byte>, n: nat, o: nat)
    requires s.Valid() && 1 <= s.dx <= 16 && t.Valid() && t.Normalise? && o == Linear(s.es, s.di)
    requires s5.Valid() && s5.mem == s.mem && s5.ds == s.ds && s5.es == s.es && s5.di == s.di && s5.si == s.si + n
    requires n == Consumed(Items(t), s.dx) && n <= |bytes| && Reading(s5, rest, bytes[n..])
    requires s5.dx == LeftAfter(Items(t), s.dx)
    ensures Done(s, Rebase(s5), t, rest, bytes, o)
  {
    hide Linear, Reading, WithPrefix, Consumed, LeftAfter, Items, CopyMatch;
    WholePrefix(s.mem, o);
    ReadingRebased(s5, rest, bytes[n..]);
    RebaseKeepsAddresses(s5);
  }

  lemma ReadyOut(s: State, t: Token, rest: seq<Item>, bytes: seq<Byte>, p: nat, o: nat)
    requires Ready(s, t, rest, bytes, p, o)
    ensures s.Valid() && 1 <= s.dx <= 16 && t.Valid() && o == Linear(s.es, s.di)
  {
    hide Linear, Reading, Items, Plain, Consumed;
  }

  lemma ReadingIgnoresBx(s: State, items: seq<Item>, bytes: seq<Byte>, bx: nat)
    requires s.Valid() && Reading(s, items, bytes) && bx < 0x1_0000
    ensures s.(bx := bx).Valid() && Reading(s.(bx := bx), items, bytes)
  {
    hide Linear, Agrees, Carries, StandsAt;
  }

  /** The state a normalise marker leaves. */
  lemma NormaliseFinishes(s: State, s4: State, t: Token, rest: seq<Item>, bytes: seq<Byte>, p: nat, o: nat, bx: nat)
    requires t.Normalise? && Ready(s, t, rest, bytes, p, o) && bx < 0x1_0000
    requires s.Valid() && 1 <= s.dx <= 16 && t.Valid() && Took(s, s4, Items(t) + rest, bytes, |Items(t)|)
    ensures s4.Valid() && Done(s, Rebase(s4.(bx := bx)), t, rest, bytes, o)
  {
    hide *;
    ReadyOut(s, t, rest, bytes, p, o);
    TookFrame(s, s4, Items(t) + rest, bytes, |Items(t)|);
    MarkerTaken(s, s4, t, rest, bytes);
    var n := Consumed(Items(t), s.dx);
    ReadingIgnoresBx(s4, rest, bytes[n..], bx);
    NormaliseDone(s, s4.(bx := bx), t, rest, bytes, n, o);
  }

  lemma NormaliseOp(s2: State, t: Token, bx: nat)
    requires s2.Valid() && t.Normalise? && t.Valid() && LoadWord(s2).0 == (t.lo, t.hi)
    requires bx == (t.hi / 8 + 0xE0) * 256 + t.lo && LoadByte(LoadWord(s2).1).0 == 1
    ensures bx < 0x1_0000 && LongOp(s2) == Again(Rebase(LoadByte(LoadWord(s2).1).1.(bx := bx)))
  {
    hide LoadWord, LoadByte, Rebase, LongOp;
    LongOpOnCount(s2, t.lo, t.hi);
  }

  lemma OpNormalise(s: State, t: Token, rest: seq<Item>, bytes: seq<Byte>, p: nat, o: nat)
    requires t.Normalise? && Ready(s, t, rest, bytes, p, o)
    ensures Op(s).Again? && Done(s, Op(s).s, t, rest, bytes, o)
  {
    assert IsLongForm(t) && t.Valid() && LowHigh(t) == (t.lo, t.hi);
    LongItems(t);
    LongDispatch(s);
    hide *;
    var s2 := NextBit(NextBit(s).1).1;
    var bx := (t.hi / 8 + 0xE0) * 256 + t.lo;
    LongReads(s, t, rest, bytes, p, o);
    CountReads(s, t, rest, bytes, LoadWord(s2).1);
    NormaliseOp(s2, t, bx);
    NormaliseFinishes(s, LoadByte(LoadWord(s2).1).1, t, rest, bytes, p, o, bx);
  }

  lemma EndOp(s2: State, t: Token, bx: nat)
    requires s2.Valid() && t.End? && t.Valid() && LoadWord(s2).0 == (t.lo, t.hi)
    requires bx == (t.hi / 8 + 0xE0) * 256 + t.lo && LoadByte(LoadWord(s2).1).0 == 0
    ensures bx < 0x1_0000 && LongOp(s2) == Finished(LoadByte(LoadWord(s2).1).1.(bx := bx))
  {
    hide LoadWord, LoadByte, LongOp;
    LongOpOnCount(s2, t.lo, t.hi);
  }

  lemma EndStepped(s: State, s4: State, t: Token, o: nat, bx: nat)
    requires s.Valid() && s4.Valid() && t.End? && o <= MEM_SIZE && s4.mem == s.mem && s4.di == s.di
    ensures Stepped(s, s4, t, o, bx) == s4.(bx := bx)
  {
    hide WithPrefix;
    WholePrefix(s.mem, o);
  }

  lemma OpEnd(s: State, t: Token, rest: seq<Item>, bytes: seq<Byte>, p: nat, o: nat)
    requires t.End? && Ready(s, t, rest, bytes, p, o)
    ensures Op(s).Finished? && o <= MEM_SIZE && Done(s, Op(s).s, t, rest, bytes, o)
  {
    assert IsLongForm(t) && t.Valid() && LowHigh(t) == (t.lo, t.hi) && o <= MEM_SIZE && !t.IsMatch();
    assert o + t.Length() <= MEM_SIZE && !t.Normalise?;
    LongItems(t);
    LongDispatch(s);
    hide *;
    var s2 := NextBit(NextBit(s).1).1;
    var s4 := LoadByte(LoadWord(s2).1).1;
    var bx := (t.hi / 8 + 0xE0) * 256 + t.lo;
    LongReads(s, t, rest, bytes, p, o);
    CountReads(s, t, rest, bytes, LoadWord(s2).1);
    EndOp(s2, t, bx);
    TookFrame(s, s4, Items(t) + rest, bytes, |Items(t)|);
    EndStepped(s, s4, t, o, bx);
    Finish(s, s4, t, rest, bytes, p, o, bx);
  }

  /** One trip round the loop consumes exactly one token. */
  lemma OpToken(s: State, t: Token, rest: seq<Item>, bytes: seq<Byte>, p: nat, o: nat)
    requires Ready(s, t, rest, bytes, p, o)
    ensures o <= MEM_SIZE && (t.IsMatch() ==> 1 <= t.dist <= o) && Done(s, Op(s).s, t, rest, bytes, o)
    ensures if t.End? then Op(s).Finished? else Op(s).Again?
  {
    assert o <= MEM_SIZE && (t.IsMatch() ==> 1 <= t.dist <= o);
    hide *;
    match t
    case Literal(_) => OpLiteral(s, t, rest, bytes, p, o);
    case Short(_, _) => OpShort(s, t, rest, bytes, p, o);
    case Long(_, _) => OpLong(s, t, rest, bytes, p, o);
    case LongByte(_, _) => OpLongByte(s, t, rest, bytes, p, o);
    case Normalise(_, _) => OpNormalise(s, t, rest, bytes, p, o);
    case End(_, _) => OpEnd(s, t, rest, bytes, p, o);
  }

  // ---- the whole stream ------------------------------------------------------------------

  function OutLen(ts: seq<Token>): nat {
    if ts == [] then 0 else ts[0].Length() + OutLen(ts[1..])
  }

  predicate AllValid(ts: seq<Token>) {
    forall t :: t in ts ==> t.Valid() && !t.End?
  }

  function ItemsOf(ts: seq<Token>, e: Token): seq<Item>
    requires AllValid(ts) && e.Valid()
  {
    if ts == [] then Items(e) else Items(ts[0]) + ItemsOf(ts[1..], e)
  }

  /** Neither offset wraps between two normalise markers, and matches stay in their segment. */
  predicate Room(ts: seq<Token>, e: Token, si: nat, di: nat, left: nat)
    requires AllValid(ts) && e.Valid() && 1 <= left <= 16
  {
    var t := if ts == [] then e else ts[0];
    var n := Consumed(Items(t), left);
    si + n < 0x1_0000 && di + t.Length() < 0x1_0000 && (t.IsMatch() ==> t.dist <= di)
    && (ts != [] ==> Room(ts[1..], e, NextSi(t, si + n), NextDi(t, di), LeftAfter(Items(t), left)))
  }

  /**
   No token's output reaches stream bytes that are still to be read. The output may overtake
   bytes already consumed, as it does when an image is unpacked over itself.
   */
  predicate Clear(ts: seq<Token>, e: Token, left: nat, p: nat, k: nat, o: nat)
    requires AllValid(ts) && e.Valid() && 1 <= left <= 16
  {
    ts == [] ||
    var n := Consumed(Items(ts[0]), left);
    n <= k && Spares(p, k, n, o, ts[0].Length())
    && Clear(ts[1..], e, LeftAfter(Items(ts[0]), left), (p + n) % CPU_MEM_SIZE, k - n, o + ts[0].Length())
  }

  /** Stream and output apart is one such layout. */
  lemma {:induction false} ApartIsClear(ts: seq<Token>, e: Token, left: nat, p: nat, k: nat, o: nat)
    requires AllValid(ts) && e.Valid() && 1 <= left <= 16 && p + k <= CPU_MEM_SIZE
    requires Consumed(ItemsOf(ts, e), left) <= k && (p + k <= o || o + OutLen(ts) <= p)
    ensures Clear(ts, e, left, p, k, o)
    decreases |ts|
  {
    hide *;
    if ts == [] {
      NoTokensIsClear(e, left, p, k, o);
    } else {
      FirstToken(ts, e, left);
      var n, left' := Consumed(Items(ts[0]), left), LeftAfter(Items(ts[0]), left);
      ConsumesMore(ts[1..], e, left');
      ApartIsClear(ts[1..], e, left', p + n, k - n, o + ts[0].Length());
      TokenIsClear(ts, e, left, p, k, o);
    }
  }

  lemma NoTokensIsClear(e: Token, left: nat, p: nat, k: nat, o: nat)
    requires e.Valid() && 1 <= left <= 16
    ensures AllValid([]) && Clear([], e, left, p, k, o)
  {
  }

  lemma FirstToken(ts: seq<Token>, e: Token, left: nat)
    requires ts != [] && AllValid(ts) && e.Valid() && 1 <= left <= 16
    ensures AllValid(ts[1..]) && ts[0].Valid() && 1 <= LeftAfter(Items(ts[0]), left) <= 16
    ensures Consumed(ItemsOf(ts, e), left)
            == Consumed(Items(ts[0]), left) + Consumed(ItemsOf(ts[1..], e), LeftAfter(Items(ts[0]), left))
    ensures OutLen(ts) == ts[0].Length() + OutLen(ts[1..])
  {
    hide Items, Consumed, LeftAfter;
    assert AllValid(ts[1..]);
    ConsumedAppend(Items(ts[0]), ItemsOf(ts[1..], e), left);
  }

  lemma TokenIsClear(ts: seq<Token>, e: Token, left: nat, p: nat, k: nat, o: nat)
    requires ts != [] && AllValid(ts) && AllValid(ts[1..]) && ts[0].Valid() && e.Valid() && 1 <= left <= 16
    requires 1 <= LeftAfter(Items(ts[0]), left) <= 16
    requires var n := Consumed(Items(ts[0]), left);
             n < k && p + k <= CPU_MEM_SIZE && (p + k <= o || o + ts[0].Length() <= p)
             && Clear(ts[1..], e, LeftAfter(Items(ts[0]), left), p + n, k - n, o + ts[0].Length())
    ensures Clear(ts, e, left, p, k, o)
  {
    hide Items, Consumed, LeftAfter, AllValid;
  }

  /** The end marker's count byte is still to come. */
  lemma {:induction false} ConsumesMore(ts: seq<Token>, e: Token, left: nat)
    requires AllValid(ts) && e.Valid() && 1 <= left <= 16
    ensures Consumed(ItemsOf(ts, e), left) > 0
    decreases |ts|
  {
    if ts == [] {
      MarkerBytes(e, left);
    } else {
      hide *;
      FirstToken(ts, e, left);
      ConsumesMore(ts[1..], e, LeftAfter(Items(ts[0]), left));
    }
  }

  lemma MarkerBytes(t: Token, left: nat)
    requires t.Valid() && 1 <= left <= 16
    ensures Consumed(Items(t), left) > 0
  {
    HasOctet(Items(t), left, |Items(t)| - 1);
  }

  lemma {:induction false} HasOctet(items: seq<Item>, left: nat, i: nat)
    requires i < |items| && items[i].Octet?
    ensures Consumed(items, left) > 0
    decreases i
  {
    if i > 0 && items[0].Flag? {
      HasOctet(items[1..], if left > 1 then left - 1 else 16, i - 1);
    }
  }

  /** The decoder stands before a stream it can run to the end. */
  predicate Runnable(s: State, ts: seq<Token>, e: Token, bytes: seq<Byte>, p: nat, o: nat) {
    s.Valid() && 1 <= s.dx <= 16 && AllValid(ts) && e.Valid() && e.End?
    && Reading(s, ItemsOf(ts, e), bytes) && Room(ts, e, s.si, s.di, s.dx) && Expandable(ts, o)
    && Linear(s.ds, s.si) == p && Linear(s.es, s.di) == o
    && !s.mem.raised && o + OutLen(ts) <= BIOS_ROM_BASE && Plain(s.mem, 0, o + OutLen(ts))
    && p + |bytes| <= CPU_MEM_SIZE && Clear(ts, e, s.dx, p, |bytes|, o)
  }

  function TailItems(ts: seq<Token>, e: Token): seq<Item>
    requires AllValid(ts) && e.Valid()
  {
    if ts == [] then [] else ItemsOf(ts[1..], e)
  }

  lemma RunnableReady(s: State, ts: seq<Token>, e: Token, bytes: seq<Byte>, p: nat, o: nat)
    requires Runnable(s, ts, e, bytes, p, o)
    ensures Ready(s, if ts == [] then e else ts[0], TailItems(ts, e), bytes, p, o)
  {
    hide Linear, Agrees, Carries, StandsAt, Items, Consumed, LeftAfter;
    if ts == [] {
      assert Items(e) + [] == Items(e);
    }
  }

  lemma RunnableNext(s: State, s': State, ts: seq<Token>, e: Token, bytes: seq<Byte>, p: nat, o: nat)
    requires Runnable(s, ts, e, bytes, p, o) && ts != [] && (ts[0].IsMatch() ==> 1 <= ts[0].dist <= o) && o <= MEM_SIZE
    requires Done(s, s', ts[0], TailItems(ts, e), bytes, o)
    ensures var n := Consumed(Items(ts[0]), s.dx);
            n <= |bytes|
            && Runnable(s', ts[1..], e, bytes[n..], Linear(s'.ds, s'.si), o + ts[0].Length())
            && Linear(s'.ds, s'.si) == (p + n) % CPU_MEM_SIZE
  {
    hide Linear, Agrees, Carries, StandsAt, Items, Consumed, LeftAfter, CopyMatch;
    var n := Consumed(Items(ts[0]), s.dx);
    assert AllValid(ts[1..]);
    PrefixKeeps(s.mem, Expand1(ts[0], s.mem.data[..o]));
    AdvanceLinear(s.ds, s.si, n);
  }

  lemma {:induction false} ExpandLength(ts: seq<Token>, h: seq<Byte>)
    requires Expandable(ts, |h|)
    ensures |Expand(ts, h)| == |h| + OutLen(ts)
    decreases |ts|
  {
    if ts != [] {
      hide Expand1;
      ExpandLength(ts[1..], Expand1(ts[0], h));
    }
  }

  /** The list can be expanded on top of `o` bytes of memory. */
  predicate Expands(m: Mem, ts: seq<Token>, o: nat) {
    m.Valid() && o + OutLen(ts) <= MEM_SIZE && Expandable(ts, o)
  }

  /** Memory after a whole token list has been expanded above the `o` bytes below ES:DI. */
  function Expanded(m: Mem, ts: seq<Token>, o: nat): Mem
    requires Expands(m, ts, o)
  {
    ExpandLength(ts, m.data[..o]);
    WithPrefix(m, Expand(ts, m.data[..o]))
  }

  /** Where the stream pointer ends. */
  function StreamEnd(ts: seq<Token>, e: Token, left: nat, p: nat): nat
    requires AllValid(ts) && e.Valid()
  {
    (p + Consumed(ItemsOf(ts, e), left)) % CPU_MEM_SIZE
  }

  /** The loop stopped at the end marker with memory `m`, ES:DI at `o` and DS:SI at `p`. */
  predicate Stopped(r: Outcome, m: Mem, o: nat, p: nat) {
    r.Finished? && r.s.mem == m && 1 <= r.s.dx <= 16 && Linear(r.s.es, r.s.di) == o && Linear(r.s.ds, r.s.si) == p
  }

  lemma RunnableBounds(s: State, ts: seq<Token>, e: Token, bytes: seq<Byte>, p: nat, o: nat)
    requires Runnable(s, ts, e, bytes, p, o)
    ensures s.Valid() && AllValid(ts) && e.Valid() && Expands(s.mem, ts, o)
  {
    hide Linear, Reading, Room, Plain;
  }

  lemma ExpandedStep(m: Mem, m1: Mem, ts: seq<Token>, o: nat)
    requires Expands(m, ts, o) && ts != [] && m1 == WithPrefix(m, Expand1(ts[0], m.data[..o]))
    ensures Expands(m1, ts[1..], o + ts[0].Length())
    ensures Expanded(m1, ts[1..], o + ts[0].Length()) == Expanded(m, ts, o)
  {
    hide WithPrefix, Expand1;
    var h1 := Expand1(ts[0], m.data[..o]);
    PrefixOfPrefix(m, h1, h1);
    ExpandLength(ts[1..], h1);
    PrefixOfPrefix(m, h1, Expand(ts[1..], h1));
  }

  lemma StreamEndStep(ts: seq<Token>, e: Token, left: nat, p: nat, n: nat)
    requires AllValid(ts) && e.Valid() && ts != [] && 1 <= left <= 16 && n == Consumed(Items(ts[0]), left)
    ensures AllValid(ts[1..])
    ensures StreamEnd(ts[1..], e, LeftAfter(Items(ts[0]), left), (p + n) % CPU_MEM_SIZE) == StreamEnd(ts, e, left, p)
  {
    hide Items, Consumed, LeftAfter;
    ConsumedAppend(Items(ts[0]), ItemsOf(ts[1..], e), left);
  }

  lemma DoneMemory(s: State, s': State, t: Token, rest: seq<Item>, bytes: seq<Byte>, o: nat)
    requires s.Valid() && 1 <= s.dx <= 16 && t.Valid() && o <= MEM_SIZE && (t.IsMatch() ==> 1 <= t.dist <= o)
    requires Done(s, s', t, rest, bytes, o)
    ensures |Expand1(t, s.mem.data[..o])| <= MEM_SIZE && s'.mem == WithPrefix(s.mem, Expand1(t, s.mem.data[..o]))
    ensures s'.dx == LeftAfter(Items(t), s.dx)
  {
    hide Linear, Reading, Items, Consumed, LeftAfter;
  }

  /** One token off the front: the loop goes on from a state that can run the rest. */
  lemma TokenRuns(s: State, ts: seq<Token>, e: Token, bytes: seq<Byte>, p: nat, o: nat) returns (rest: seq<Byte>)
    requires Runnable(s, ts, e, bytes, p, o) && ts != []
    ensures s.Valid() && AllValid(ts) && e.Valid() && Expands(s.mem, ts, o)
    ensures 1 <= s.dx <= 16 && ts[0].Valid() && o <= MEM_SIZE && (ts[0].IsMatch() ==> 1 <= ts[0].dist <= o)
    ensures var s' := Op(s).s; var p' := Linear(s'.ds, s'.si);
            Op(s).Again? && Done(s, s', ts[0], TailItems(ts, e), bytes, o)
            && Runnable(s', ts[1..], e, rest, p', o + ts[0].Length())
            && p' == (p + Consumed(Items(ts[0]), s.dx)) % CPU_MEM_SIZE
  {
    RunnableBounds(s, ts, e, bytes, p, o);
    RunnableReady(s, ts, e, bytes, p, o);
    assert ts[0] in ts && !ts[0].End? && ts[0].Valid();
    hide *;
    OpToken(s, ts[0], TailItems(ts, e), bytes, p, o);
    ReadyIn(s, ts[0], TailItems(ts, e), bytes, p, o);
    RunnableNext(s, Op(s).s, ts, e, bytes, p, o);
    rest := bytes[Consumed(Items(ts[0]), s.dx)..];
  }

  /** The goal of the rest of the list, from `s'`, is the goal of the whole from `s`. */
  predicate SameGoal(s: State, s': State, ts: seq<Token>, e: Token, p: nat, p': nat, o: nat)
    requires ts != []
  {
    var o' := o + ts[0].Length();
    AllValid(ts) && AllValid(ts[1..]) && e.Valid() && Expands(s.mem, ts, o) && Expands(s'.mem, ts[1..], o')
    && Expanded(s'.mem, ts[1..], o') == Expanded(s.mem, ts, o)
    && StreamEnd(ts[1..], e, s'.dx, p') == StreamEnd(ts, e, s.dx, p)
    && o' + OutLen(ts[1..]) == o + OutLen(ts)
  }

  lemma GoalKept(s: State, s': State, ts: seq<Token>, e: Token, bytes: seq<Byte>, p: nat, p': nat, o: nat)
    requires s.Valid() && ts != [] && AllValid(ts) && e.Valid() && Expands(s.mem, ts, o)
    requires 1 <= s.dx <= 16 && ts[0].Valid() && o <= MEM_SIZE && (ts[0].IsMatch() ==> 1 <= ts[0].dist <= o)
    requires Done(s, s', ts[0], TailItems(ts, e), bytes, o)
    requires p' == (p + Consumed(Items(ts[0]), s.dx)) % CPU_MEM_SIZE
    ensures SameGoal(s, s', ts, e, p, p', o)
  {
    hide Done, Expands, Expanded, StreamEnd, Items, Consumed, LeftAfter, Expand1, AllValid, WithPrefix;
    DoneMemory(s, s', ts[0], TailItems(ts, e), bytes, o);
    ExpandedStep(s.mem, s'.mem, ts, o);
    StreamEndStep(ts, e, s.dx, p, Consumed(Items(ts[0]), s.dx));
  }

  lemma TokenStep(s: State, ts: seq<Token>, e: Token, bytes: seq<Byte>, p: nat, o: nat) returns (rest: seq<Byte>)
    requires Runnable(s, ts, e, bytes, p, o) && ts != []
    ensures s.Valid() && Op(s).Again?
    ensures var s' := Op(s).s; var p' := Linear(s'.ds, s'.si);
            Runnable(s', ts[1..], e, rest, p', o + ts[0].Length()) && SameGoal(s, s', ts, e, p, p', o)
  {
    hide *;
    rest := TokenRuns(s, ts, e, bytes, p, o);
    GoalKept(s, Op(s).s, ts, e, bytes, p, Linear(Op(s).s.ds, Op(s).s.si), o);
  }

  lemma ReadyIn(s: State, t: Token, rest: seq<Item>, bytes: seq<Byte>, p: nat, o: nat)
    requires Ready(s, t, rest, bytes, p, o)
    ensures s.Valid() && 1 <= s.dx <= 16 && t.Valid() && p == Linear(s.ds, s.si)
    ensures s.si + Consumed(Items(t), s.dx) < 0x1_0000
  {
    hide Linear, Reading, Items, Plain, Consumed;
  }

  lemma EndStops(s: State, s': State, e: Token, bytes: seq<Byte>, p: nat, o: nat)
    requires s.Valid() && 1 <= s.dx <= 16 && e.Valid() && e.End? && o < CPU_MEM_SIZE
    requires p == Linear(s.ds, s.si) && s.si + Consumed(Items(e), s.dx) < 0x1_0000
    requires Done(s, s', e, [], bytes, o)
    ensures Expands(s.mem, [], o) && Stopped(Finished(s'), Expanded(s.mem, [], o), o, StreamEnd([], e, s.dx, p))
  {
    hide Linear, Reading, Items, Consumed, LeftAfter;
    WholePrefix(s.mem, o);
    AdvanceLinear(s.ds, s.si, Consumed(Items(e), s.dx));
    assert Expand([], s.mem.data[..o]) == s.mem.data[..o];
  }

  lemma DecodesEnd(s: State, e: Token, bytes: seq<Byte>, p: nat, o: nat)
    requires Runnable(s, [], e, bytes, p, o)
    ensures e.Valid() && Expands(s.mem, [], o)
    ensures Stopped(Op(s), Expanded(s.mem, [], o), o, StreamEnd([], e, s.dx, p))
  {
    RunnableReady(s, [], e, bytes, p, o);
    assert e.End? && !e.IsMatch() && o < CPU_MEM_SIZE && TailItems([], e) == [];
    hide *;
    OpToken(s, e, [], bytes, p, o);
    ReadyIn(s, e, [], bytes, p, o);
    EndStops(s, Op(s).s, e, bytes, p, o);
  }

  /**
   The main theorem. From any state whose stream is an encoding of `ts` closed by an end
   marker, the loop writes the LZ77 expansion of `ts` at ES:DI and nothing else, stops at
   the marker with the stream pointer just past it, and does so exactly when the operation
   limit allows one operation per token.
   */
  lemma {:induction false} DecodesTokens(s: State, ts: seq<Token>, e: Token, bytes: seq<Byte>, p: nat, o: nat, maxOps: nat)
    requires Runnable(s, ts, e, bytes, p, o)
    ensures s.Valid() && AllValid(ts) && e.Valid() && Expands(s.mem, ts, o)
    ensures if maxOps > |ts|
            then Stopped(Run(s, maxOps), Expanded(s.mem, ts, o), o + OutLen(ts), StreamEnd(ts, e, s.dx, p))
            else Run(s, maxOps).TooManyOps?
    decreases |ts|
  {
    hide Op, Runnable, Expands, Expanded, StreamEnd, Stopped, Linear, AllValid;
    RunnableBounds(s, ts, e, bytes, p, o);
    if ts == [] {
      DecodesEnd(s, e, bytes, p, o);
      StoppedIsFinished(Op(s), Expanded(s.mem, [], o), o, StreamEnd([], e, s.dx, p));
    } else if maxOps > 0 {
      var rest := TokenStep(s, ts, e, bytes, p, o);
      var s' := Op(s).s;
      DecodesTokens(s', ts[1..], e, rest, Linear(s'.ds, s'.si), o + ts[0].Length(), maxOps - 1);
    }
  }

  lemma StoppedIsFinished(r: Outcome, m: Mem, o: nat, p: nat)
    requires Stopped(r, m, o, p)
    ensures r.Finished?
  {
  }

  /** The encoder's bytes are such a stream, whatever follows them in memory. */
  lemma EncodedIsReadable(s: State, items: seq<Item>)
    requires s.Valid() && 1 <= s.dx <= 16 && s.bp == Pack(items, s.dx)
    requires StandsAt(s.mem, Linear(s.ds, s.si), Layout(items, s.dx))
    ensures Reading(s, items, Layout(items, s.dx))
  {
    hide Linear, StandsAt;
    PackAgrees(items, s.dx);
    LayoutCarries(items, s.dx);
  }
}
