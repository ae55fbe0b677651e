/**
 The LZEXE 0.91 format: LZ77 tokens, their expansion, and the interleaved bit stream
 in which 16-bit flag words and data bytes share one sequence of bytes.
 */
module LzexeCode {
  import opened Memory
  import Bits

  datatype Token =
    | Literal(b: Byte)
    | Short(dist: nat, len: nat)          // four flag bits and one byte
    | Long(dist: nat, len: nat)           // two flag bits and two bytes
    | LongByte(dist: nat, len: nat)       // two flag bits, two bytes and a count byte
    | Normalise(lo: Byte, hi: Byte)       // count byte 1: rebase both segments
    | End(lo: Byte, hi: Byte)             // count byte 0
  {
    /** The ranges the format can express. */
    predicate Valid() {
      match this
      case Literal(_) => true
      case Short(dist, len) => 1 <= dist <= 256 && 2 <= len <= 5
      case Long(dist, len) => 1 <= dist <= 8192 && 3 <= len <= 9
      case LongByte(dist, len) => 1 <= dist <= 8192 && 3 <= len <= 256
      case Normalise(_, hi) => hi % 8 == 0
      case End(_, hi) => hi % 8 == 0
    }

    predicate IsMatch() {
      Short? || Long? || LongByte?
    }

    function Length(): nat {
      if Literal? then 1 else if IsMatch() then len else 0
    }
  }

  // ---- LZ77 ---------------------------------------------------------------------

  /** Appends `len` bytes, each the byte `dist` before it: a match may overlap itself. */
  function CopyMatch(h: seq<Byte>, dist: nat, len: nat): (r: seq<Byte>)
    requires 1 <= dist <= |h|
    ensures |r| == |h| + len && r[..|h|] == h
    decreases len
  {
    if len == 0 then h else CopyMatch(h + [h[|h| - dist]], dist, len - 1)
  }

  function Expand1(t: Token, h: seq<Byte>): (r: seq<Byte>)
    requires t.IsMatch() ==> 1 <= t.dist <= |h|
    ensures |r| == |h| + t.Length() && r[..|h|] == h
  {
    if t.Literal? then h + [t.b] else if t.IsMatch() then CopyMatch(h, t.dist, t.len) else h
  }

  /** Every match reaches back to bytes that exist. */
  predicate Expandable(ts: seq<Token>, n: nat) {
    ts == [] || ((ts[0].IsMatch() ==> 1 <= ts[0].dist <= n) && Expandable(ts[1..], n + ts[0].Length()))
  }

  /** The expansion of a token list on top of the bytes already there. */
  function Expand(ts: seq<Token>, h: seq<Byte>): (r: seq<Byte>)
    requires Expandable(ts, |h|)
    ensures |r| >= |h| && r[..|h|] == h
    decreases |ts|
  {
    if ts == [] then h
    else
      var h1 := Expand1(ts[0], h);
      var r := Expand(ts[1..], h1);
      assert r[..|h|] == r[..|h1|][..|h|];
      r
  }

  /** What a match means: each appended byte equals the one `dist` before it in the result. */
  lemma {:induction false} MatchRepeats(h: seq<Byte>, dist: nat, len: nat, i: nat)
    requires 1 <= dist <= |h| && |h| <= i < |h| + len
    ensures CopyMatch(h, dist, len)[i] == CopyMatch(h, dist, len)[i - dist]
    decreases len
  {
    var h1 := h + [h[|h| - dist]];
    var r := CopyMatch(h1, dist, len - 1);
    if i == |h| {
      assert r[..|h1|] == h1;
      assert r[i] == r[..|h1|][i] && r[i - dist] == r[..|h1|][i - dist];
    } else {
      MatchRepeats(h1, dist, len - 1, i);
    }
  }

  /** A match that does not overlap itself is a plain copy of a slice. */
  lemma {:induction false} MatchCopies(h: seq<Byte>, dist: nat, len: nat)
    requires 1 <= dist <= |h| && len <= dist
    ensures CopyMatch(h, dist, len) == h + h[|h| - dist..|h| - dist + len]
    decreases len
  {
    var s := |h| - dist;
    if len == 0 {
      assert h[s..s] == [];
      assert h + [] == h;
    } else {
      var h1 := h + [h[s]];
      MatchCopies(h1, dist, len - 1);
      hide CopyMatch;
      assert h1[s + 1..s + len] == h[s + 1..s + len];
      assert h[s..s + len] == [h[s]] + h[s + 1..s + len];
      assert h1 + h[s + 1..s + len] == h + ([h[s]] + h[s + 1..s + len]);
    }
  }

  // ---- the bit stream -------------------------------------------------------------

  datatype Item = Flag(b: bool) | Octet(v: Byte)

  /** A token's flag bits and data bytes in the order the decoder consumes them. */
  function Items(t: Token): (r: seq<Item>)
    requires t.Valid()
  {
    match t
    case Literal(b) => [Flag(true), Octet(b)]
    case Short(dist, len) =>
      [Flag(false), Flag(false), Flag((len - 2) / 2 == 1), Flag((len - 2) % 2 == 1), Octet(256 - dist)]
    case Long(dist, len) =>
      var v := 8192 - dist;
      [Flag(false), Flag(true), Octet(v % 256), Octet(v / 256 * 8 + (len - 2))]
    case LongByte(dist, len) =>
      var v := 8192 - dist;
      [Flag(false), Flag(true), Octet(v % 256), Octet(v / 256 * 8), Octet(len - 1)]
    case Normalise(lo, hi) => [Flag(false), Flag(true), Octet(lo), Octet(hi), Octet(1)]
    case End(lo, hi) => [Flag(false), Flag(true), Octet(lo), Octet(hi), Octet(0)]
  }

  /** The next `n` flags of the stream are the low bits of `word`; beyond the last flag anything goes. */
  predicate Agrees(word: nat, items: seq<Item>, n: nat)
    decreases |items|
  {
    n == 0 || items == [] ||
    if items[0].Octet? then Agrees(word, items[1..], n)
    else (word % 2 == 1 <==> items[0].b) && Agrees(word / 2, items[1..], n - 1)
  }

  function WordOf(lo: nat, hi: nat): nat {
    lo + 256 * hi
  }

  /**
   `bytes` carries `items` for a reader whose flag buffer still has `left` bits: data bytes
   stand where they are consumed, and a new flag word follows as soon as the buffer empties.
   */
  predicate Carries(bytes: seq<Byte>, items: seq<Item>, left: nat)
    decreases |items|
  {
    if items == [] then true
    else if items[0].Octet? then bytes != [] && bytes[0] == items[0].v && Carries(bytes[1..], items[1..], left)
    else if left > 1 then Carries(bytes, items[1..], left - 1)
    else |bytes| >= 2 && Agrees(WordOf(bytes[0], bytes[1]), items[1..], 16) && Carries(bytes[2..], items[1..], 16)
  }

  /** Bytes consumed by `items`, and flag bits left afterwards. */
  function Consumed(items: seq<Item>, left: nat): nat
    decreases |items|
  {
    if items == [] then 0
    else if items[0].Octet? then 1 + Consumed(items[1..], left)
    else if left > 1 then Consumed(items[1..], left - 1)
    else 2 + Consumed(items[1..], 16)
  }

  function LeftAfter(items: seq<Item>, left: nat): (r: nat)
    requires 1 <= left <= 16
    ensures 1 <= r <= 16
    decreases |items|
  {
    if items == [] then left
    else if items[0].Octet? then LeftAfter(items[1..], left)
    else if left > 1 then LeftAfter(items[1..], left - 1)
    else LeftAfter(items[1..], 16)
  }

  // ---- the encoder --------------------------------------------------------------------

  /** The next `n` flags packed low bit first, zeros when they run out. */
  function Pack(items: seq<Item>, n: nat): nat
    decreases |items|
  {
    if n == 0 || items == [] then 0
    else if items[0].Octet? then Pack(items[1..], n)
    else (if items[0].b then 1 else 0) + 2 * Pack(items[1..], n - 1)
  }

  function Layout(items: seq<Item>, left: nat): seq<Byte>
    decreases |items|
  {
    if items == [] then []
    else if items[0].Octet? then [items[0].v] + Layout(items[1..], left)
    else if left > 1 then Layout(items[1..], left - 1)
    else
      var w := Pack(items[1..], 16) % 0x1_0000;
      [w % 256, w / 256] + Layout(items[1..], 16)
  }

  lemma {:induction false} PackAgrees(items: seq<Item>, n: nat)
    ensures Agrees(Pack(items, n), items, n)
    decreases |items|
  {
    if n > 0 && items != [] {
      PackAgrees(items[1..], if items[0].Octet? then n else n - 1);
    }
  }

  lemma {:induction false} PackBound(items: seq<Item>, n: nat)
    ensures Pack(items, n) < Bits.Pow2(n)
    decreases |items|
  {
    if n > 0 && items != [] {
      PackBound(items[1..], if items[0].Octet? then n else n - 1);
    }
  }

  lemma PackFits(items: seq<Item>)
    ensures Pack(items, 16) < 0x1_0000
  {
    PackBound(items, 16);
    assert Bits.Pow2(4) == 16;
    assert Bits.Pow2(8) == 256;
    assert Bits.Pow2(12) == 4096;
    assert Bits.Pow2(16) == 0x1_0000;
  }

  /** The encoder's output carries what it was given. */
  lemma {:induction false} LayoutCarries(items: seq<Item>, left: nat)
    ensures Carries(Layout(items, left), items, left)
    decreases |items|
  {
    if items != [] {
      var tail := items[1..];
      if items[0].Octet? {
        LayoutCarries(tail, left);
      } else if left > 1 {
        LayoutCarries(tail, left - 1);
      } else {
        LayoutCarries(tail, 16);
        PackAgrees(tail, 16);
        PackFits(tail);
      }
    }
  }
}
