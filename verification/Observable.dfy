/** Observable effects as a byte stream: packed records, batched in a fixed buffer. */
module Observable {
  import opened Memory
  import Bits
  import LeLoader
  import LeFields

  const RECORD := 40
  const BUFFER := 65520

  /** A record of integers, or one followed by a payload. */
  datatype Effect = Record(kind: int, a: int, b: int, c: int, d: int) | Payload(kind: int, identity: int, bytes: seq<Byte>)

  /** `<I4xQQQQ` */
  function Pack(kind: int, a: int, b: int, c: int, d: int): (r: seq<Byte>)
    ensures |r| == RECORD
  {
    LeLoader.Bytes(kind, 4) + [0, 0, 0, 0] + LeLoader.Bytes(a, 8) + LeLoader.Bytes(b, 8) + LeLoader.Bytes(c, 8) + LeLoader.Bytes(d, 8)
  }

  /** The bytes one effect adds. */
  function BytesOf(e: Effect): seq<Byte> {
    match e
    case Record(kind, a, b, c, d) => Pack(kind, a, b, c, d)
    case Payload(kind, identity, bytes) => Pack(kind, identity, |bytes|, 0, 0) + bytes
  }

  function Stream(effects: seq<Effect>): seq<Byte> {
    if effects == [] then [] else BytesOf(effects[0]) + Stream(effects[1..])
  }

  // ---- what a stream determines ----------------------------------------------------------

  /** Fields as they are stored, payload lengths included. */
  predicate Stored(e: Effect) {
    0 <= e.kind < 0x1_0000_0000
    && match e
       case Record(_, a, b, c, d) => Word(a) && Word(b) && Word(c) && Word(d)
       case Payload(_, identity, bytes) => Word(identity) && Word(|bytes|)
  }

  predicate Word(v: int) {
    0 <= v < 0x1_0000_0000_0000_0000
  }

  /** A byte more holds 256 times as many values. */
  lemma ByteMore(w: nat)
    requires w > 0
    ensures Bits.Pow2(8 * w) == 256 * Bits.Pow2(8 * (w - 1))
  {
    var n := 8 * (w - 1);
    assert Bits.Pow2(n + 2) == 4 * Bits.Pow2(n);
    assert Bits.Pow2(n + 4) == 4 * Bits.Pow2(n + 2);
    assert Bits.Pow2(n + 6) == 4 * Bits.Pow2(n + 4);
    assert Bits.Pow2(n + 8) == 4 * Bits.Pow2(n + 6);
  }

  lemma {:induction false} BytesInjective(a: nat, b: nat, w: nat)
    requires a < Bits.Pow2(8 * w) && b < Bits.Pow2(8 * w) && LeLoader.Bytes(a, w) == LeLoader.Bytes(b, w)
    ensures a == b
    decreases w
  {
    if w > 0 {
      ByteMore(w);
      LeLoader.BytesStep(a, w);
      LeLoader.BytesStep(b, w);
      assert LeLoader.Bytes(a, w)[0] == a % 256 && LeLoader.Bytes(b, w)[0] == b % 256;
      assert LeLoader.Bytes(a, w)[1..] == LeLoader.Bytes(a / 256, w - 1) && LeLoader.Bytes(b, w)[1..] == LeLoader.Bytes(b / 256, w - 1);
      hide LeLoader.Bytes;
      BytesInjective(a / 256, b / 256, w - 1);
    }
  }

  lemma Powers()
    ensures Bits.Pow2(32) == 0x1_0000_0000 && Bits.Pow2(64) == 0x1_0000_0000_0000_0000
  {
    assert Bits.Pow2(8) == 256;
    ByteMore(2);
    ByteMore(3);
    ByteMore(4);
    ByteMore(5);
    ByteMore(6);
    ByteMore(7);
    ByteMore(8);
  }

  lemma PackParts(kind: int, a: int, b: int, c: int, d: int)
    ensures var p := Pack(kind, a, b, c, d);
            p[..4] == LeLoader.Bytes(kind, 4) && p[8..16] == LeLoader.Bytes(a, 8) && p[16..24] == LeLoader.Bytes(b, 8)
            && p[24..32] == LeLoader.Bytes(c, 8) && p[32..40] == LeLoader.Bytes(d, 8)
  {
    hide LeLoader.Bytes;
  }

  lemma EightBytes(v: nat)
    requires Word(v)
    ensures LeLoader.Bytes(v, 8) == LeLoader.Bytes(v, 4) + LeLoader.Bytes(v / 0x1_0000_0000, 4)
  {
    LeFields.BytesFour(v);
    LeLoader.BytesStep(v, 8);
    LeLoader.BytesStep(v / 0x100, 7);
    LeLoader.BytesStep(v / 0x1_0000, 6);
    LeLoader.BytesStep(v / 0x100_0000, 5);
    LeLoader.BytesStep(v, 4);
    LeLoader.BytesStep(v / 0x100, 3);
    LeLoader.BytesStep(v / 0x1_0000, 2);
    LeLoader.BytesStep(v / 0x100_0000, 1);
    Quarters(v);
    hide LeLoader.Bytes;
    assert LeLoader.Bytes(v / 0x1_0000_0000, 0) == [] by {
      LeFields.BytesTwo(v);
    }
  }

  lemma Quarters(v: nat)
    ensures v / 0x100 / 0x100 == v / 0x1_0000 && v / 0x1_0000 / 0x100 == v / 0x100_0000 && v / 0x100_0000 / 0x100 == v / 0x1_0000_0000
  {
  }

  /** Eight bytes, the lowest first. */
  function Long(b: seq<Byte>): int
    requires |b| == 8
  {
    LeFields.Value(b[..4]) + 0x1_0000_0000 * LeFields.Value(b[4..])
  }

  lemma LongIs(v: nat)
    requires Word(v)
    ensures Long(LeLoader.Bytes(v, 8)) == v
  {
    EightBytes(v);
    LeFields.BytesValue(v);
    LeFields.BytesValue(v / 0x1_0000_0000);
    hide LeLoader.Bytes, LeFields.Value;
  }

  /** Forty bytes: the kind in four, four zeros, and four fields of eight, each with its lowest byte first. */
  lemma PackLayout(kind: nat, a: nat, b: nat, c: nat, d: nat)
    requires kind < 0x1_0000_0000 && Word(a) && Word(b) && Word(c) && Word(d)
    ensures var p := Pack(kind, a, b, c, d);
            |p| == 40 && LeFields.Value(p[..4]) == kind && p[4..8] == [0, 0, 0, 0]
            && Long(p[8..16]) == a && Long(p[16..24]) == b && Long(p[24..32]) == c && Long(p[32..40]) == d
  {
    PackParts(kind, a, b, c, d);
    LeFields.BytesValue(kind);
    LongIs(a);
    LongIs(b);
    LongIs(c);
    LongIs(d);
    PackPadding(kind, a, b, c, d);
    hide Pack, LeLoader.Bytes, LeFields.Value, Long;
  }

  lemma PackPadding(kind: int, a: int, b: int, c: int, d: int)
    ensures Pack(kind, a, b, c, d)[4..8] == [0, 0, 0, 0]
  {
    hide LeLoader.Bytes;
  }

  /** A record's bytes give back its kind and all its fields. */
  lemma PackInjective(k: nat, a: nat, b: nat, c: nat, d: nat, k': nat, a': nat, b': nat, c': nat, d': nat)
    requires k < 0x1_0000_0000 && k' < 0x1_0000_0000 && Word(a) && Word(b) && Word(c) && Word(d)
    requires Word(a') && Word(b') && Word(c') && Word(d')
    requires Pack(k, a, b, c, d) == Pack(k', a', b', c', d')
    ensures k == k' && a == a' && b == b' && c == c' && d == d'
  {
    PackParts(k, a, b, c, d);
    PackParts(k', a', b', c', d');
    Powers();
    hide Pack, Bits.Pow2, LeLoader.Bytes;
    BytesInjective(k, k', 4);
    BytesInjective(a, a', 8);
    BytesInjective(b, b', 8);
    BytesInjective(c, c', 8);
    BytesInjective(d, d', 8);
  }

  /** Kinds that carry payloads never appear on plain records. */
  ghost predicate Separated(effects: seq<Effect>, carriers: set<int>) {
    forall e :: e in effects ==> Stored(e) && (e.kind in carriers <==> e.Payload?)
  }

  /** The first record of an effect's bytes. */
  function HeadOf(e: Effect): seq<Byte> {
    match e
    case Record(kind, a, b, c, d) => Pack(kind, a, b, c, d)
    case Payload(kind, identity, bytes) => Pack(kind, identity, |bytes|, 0, 0)
  }

  lemma HeadInjective(x: Effect, y: Effect)
    requires Stored(x) && Stored(y) && x.Payload? == y.Payload? && HeadOf(x) == HeadOf(y)
    ensures x.Record? ==> x == y
    ensures x.Payload? ==> x.kind == y.kind && x.identity == y.identity && |x.bytes| == |y.bytes|
  {
    hide Pack;
    match x {
      case Record(kind, a, b, c, d) => PackInjective(kind, a, b, c, d, y.kind, y.a, y.b, y.c, y.d);
      case Payload(kind, identity, bytes) => PackInjective(kind, identity, |bytes|, 0, 0, y.kind, y.identity, |y.bytes|, 0, 0);
    }
  }

  lemma SameKind(x: Effect, y: Effect)
    requires Stored(x) && Stored(y) && HeadOf(x) == HeadOf(y)
    ensures x.kind == y.kind
  {
    Powers();
    match x {
      case Record(kind, a, b, c, d) => PackParts(kind, a, b, c, d);
      case Payload(kind, identity, bytes) => PackParts(kind, identity, |bytes|, 0, 0);
    }
    match y {
      case Record(kind, a, b, c, d) => PackParts(kind, a, b, c, d);
      case Payload(kind, identity, bytes) => PackParts(kind, identity, |bytes|, 0, 0);
    }
    hide Pack, Bits.Pow2, LeLoader.Bytes;
    BytesInjective(x.kind, y.kind, 4);
  }

  lemma BytesOfHead(e: Effect)
    ensures |HeadOf(e)| == RECORD
    ensures e.Record? ==> BytesOf(e) == HeadOf(e)
    ensures e.Payload? ==> BytesOf(e) == HeadOf(e) + e.bytes
  {
    hide Pack;
  }

  /** The first effect of two equal streams is the same, and so is what follows. */
  lemma FirstEffect(x: Effect, y: Effect, s: seq<Byte>, t: seq<Byte>)
    requires Stored(x) && Stored(y) && (x.kind == y.kind ==> x.Payload? == y.Payload?) && BytesOf(x) + s == BytesOf(y) + t
    ensures x == y && s == t
  {
    BytesOfHead(x);
    BytesOfHead(y);
    var all := BytesOf(x) + s;
    assert all[..RECORD] == HeadOf(x);
    assert (BytesOf(y) + t)[..RECORD] == HeadOf(y);
    hide HeadOf, BytesOf, Stored;
    SameKind(x, y);
    HeadInjective(x, y);
    if x.Payload? {
      var n := |x.bytes|;
      assert all[RECORD..RECORD + n] == x.bytes && (BytesOf(y) + t)[RECORD..RECORD + n] == y.bytes;
    }
    assert all[|BytesOf(x)|..] == s && (BytesOf(y) + t)[|BytesOf(y)|..] == t;
  }

  lemma StreamNonEmpty(effects: seq<Effect>)
    requires effects != []
    ensures |Stream(effects)| > 0
  {
    BytesOfHead(effects[0]);
    hide BytesOf, HeadOf;
  }

  lemma StreamNext(effects: seq<Effect>)
    requires effects != []
    ensures Stream(effects) == BytesOf(effects[0]) + Stream(effects[1..])
  {
    hide BytesOf;
  }

  lemma SeparatedNext(effects: seq<Effect>, carriers: set<int>)
    requires Separated(effects, carriers) && effects != []
    ensures Separated(effects[1..], carriers) && Stored(effects[0]) && (effects[0].kind in carriers <==> effects[0].Payload?)
  {
    hide Stored;
    assert effects[0] in effects;
  }

  /** As long as payload kinds and record kinds do not mix, the stream determines the effects and their order. */
  lemma {:induction false} StreamIsFaithful(x: seq<Effect>, y: seq<Effect>, carriers: set<int>)
    requires Separated(x, carriers) && Separated(y, carriers) && Stream(x) == Stream(y)
    ensures x == y
    decreases |x|
  {
    hide *;
    if |x| == 0 || |y| == 0 {
      if |x| > 0 {
        StreamNonEmpty(x);
      }
      if |y| > 0 {
        StreamNonEmpty(y);
      }
      StreamNothing(x);
      StreamNothing(y);
    } else {
      StreamNext(x);
      StreamNext(y);
      SeparatedNext(x, carriers);
      SeparatedNext(y, carriers);
      FirstEffect(x[0], y[0], Stream(x[1..]), Stream(y[1..]));
      StreamIsFaithful(x[1..], y[1..], carriers);
      assert x == [x[0]] + x[1..] && y == [y[0]] + y[1..];
    }
  }

  lemma StreamNothing(x: seq<Effect>)
    ensures |x| == 0 ==> Stream(x) == [] && x == []
  {
  }

  /**
   Without that separation it does not: a payload that spells a record, and a record that
   announces a payload of that length, give one stream and one count for two histories.
   */
  lemma MixedKindsCollide(kind: int, r: Effect, p: Effect)
    requires r.Record? && p.Record?
    ensures var x := [Record(kind, 0, RECORD, 0, 0), r, Payload(kind, 0, BytesOf(p))];
            var y := [Payload(kind, 0, BytesOf(r)), Record(kind, 0, RECORD, 0, 0), p];
            x != y && |x| == |y| && Stream(x) == Stream(y)
  {
    hide Pack;
    var h := Pack(kind, 0, RECORD, 0, 0);
    var x := [Record(kind, 0, RECORD, 0, 0), r, Payload(kind, 0, BytesOf(p))];
    var y := [Payload(kind, 0, BytesOf(r)), Record(kind, 0, RECORD, 0, 0), p];
    assert x[0] != y[0];
    assert |BytesOf(r)| == RECORD && |BytesOf(p)| == RECORD;
    ThreeStream(x);
    ThreeStream(y);
    assert BytesOf(x[0]) == h && BytesOf(x[1]) == BytesOf(r) && BytesOf(x[2]) == h + BytesOf(p);
    assert BytesOf(y[0]) == h + BytesOf(r) && BytesOf(y[1]) == h && BytesOf(y[2]) == BytesOf(p);
    hide BytesOf;
    assert h + BytesOf(r) + (h + BytesOf(p)) == h + BytesOf(r) + h + BytesOf(p);
  }

  lemma ThreeStream(x: seq<Effect>)
    requires |x| == 3
    ensures Stream(x) == BytesOf(x[0]) + BytesOf(x[1]) + BytesOf(x[2])
  {
    hide BytesOf;
    assert x[1..][1..] == [x[2]] && x[1..][0] == x[1] && [x[2]][1..] == [];
    assert Stream([x[2]]) == BytesOf(x[2]) + Stream([]);
    assert Stream(x[1..]) == BytesOf(x[1]) + Stream(x[1..][1..]);
    assert Stream(x) == BytesOf(x[0]) + Stream(x[1..]);
  }

  // ---- the accumulator ------------------------------------------------------------------

  class RollingEffectDigest {
    const buffer: array<Byte>
    var used: nat
    var count: nat
    var finished: bool
    /** Everything the hash has been fed. */
    var hashed: seq<Byte>

    constructor (header: seq<Byte>)
      ensures Valid() && fresh(buffer) && Fed() == header && count == 0 && !finished
    {
      buffer := new Byte[BUFFER](_ => 0);
      used, count, finished, hashed := 0, 0, false, header;
    }

    ghost predicate Valid()
      reads this
    {
      buffer.Length == BUFFER && used <= BUFFER
    }

    /** What the hash has been fed, and what waits in the buffer. */
    ghost function Fed(): seq<Byte>
      reads this, buffer
      requires Valid()
    {
      hashed + buffer[..used]
    }

    method Flush()
      requires Valid()
      modifies this`used, this`hashed
      ensures Valid() && used == 0 && hashed == old(Fed()) && Fed() == old(Fed())
    {
      hashed := hashed + buffer[..used];
      used := 0;
    }

    /** Feeding one record at a time or in batches makes no difference to what is fed. */
    method RecordEffect(kind: int, a: int, b: int, c: int, d: int) returns (ok: bool)
      requires Valid()
      modifies this`used, this`count, this`hashed, buffer
      ensures Valid() && ok == !finished
      ensures ok ==> Fed() == old(Fed()) + Pack(kind, a, b, c, d) == old(Fed()) + BytesOf(Record(kind, a, b, c, d)) && count == old(count) + 1
      ensures !ok ==> Fed() == old(Fed()) && count == old(count)
    {
      hide Pack;
      if finished {
        return false;
      }
      if used + RECORD > BUFFER {
        Flush();
      }
      Store(Pack(kind, a, b, c, d));
      count := count + 1;
      ok := true;
    }

    method Store(x: seq<Byte>)
      requires Valid() && used + |x| <= BUFFER
      modifies this`used, buffer
      ensures Valid() && Fed() == old(Fed()) + x
    {
      forall i | 0 <= i < |x| {
        buffer[used + i] := x[i];
      }
      assert buffer[..used + |x|] == old(buffer[..used]) + x;
      used := used + |x|;
    }

    method RecordBytes(kind: int, payload: seq<Byte>, identity: int) returns (ok: bool)
      requires Valid()
      modifies this`used, this`count, this`hashed, buffer
      ensures Valid() && ok == !finished
      ensures ok ==> Fed() == old(Fed()) + Pack(kind, identity, |payload|, 0, 0) + payload && count == old(count) + 1
      ensures ok ==> Fed() == old(Fed()) + BytesOf(Payload(kind, identity, payload))
      ensures !ok ==> Fed() == old(Fed()) && count == old(count)
    {
      hide Pack;
      ok := RecordEffect(kind, identity, |payload|, 0, 0);
      if ok {
        Flush();
        hashed := hashed + payload;
        assert buffer[..0] == [];
      }
    }

    method Finish() returns (ok: bool)
      requires Valid()
      modifies this`used, this`hashed, this`finished
      ensures Valid() && ok == !old(finished) && finished
      ensures ok ==> hashed == old(Fed())
      ensures Fed() == old(Fed())
    {
      if finished {
        return false;
      }
      Flush();
      finished := true;
      ok := true;
    }
  }
}
