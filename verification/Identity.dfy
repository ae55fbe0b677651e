/** Canonical identity keys: percent-encoded components joined by colons, and taking them apart again. */
module Identity {
  import opened Memory

  type Text = seq<Byte>

  // ---- percent encoding (sections 2.1 and 2.3 of RFC 3986) -----------------------------

  predicate Unreserved(b: Byte) {
    'a' as int <= b <= 'z' as int || 'A' as int <= b <= 'Z' as int || '0' as int <= b <= '9' as int
    || b == '-' as int || b == '.' as int || b == '_' as int || b == '~' as int
  }

  function HexDigit(n: nat): (c: char)
    requires n < 16
  {
    if n < 10 then '0' + n as char else 'A' + (n - 10) as char
  }

  /** Lower-case digits decode too. */
  function HexValue(c: char): (n: Option<nat>)
    ensures n.Some? ==> n.value < 16
  {
    if '0' <= c <= '9' then Some(c as int - '0' as int)
    else if 'A' <= c <= 'F' then Some(c as int - 'A' as int + 10)
    else if 'a' <= c <= 'f' then Some(c as int - 'a' as int + 10)
    else None
  }

  function QuoteByte(b: Byte): string {
    if Unreserved(b) then [b as char] else ['%', HexDigit(b / 16), HexDigit(b % 16)]
  }

  /** `quote(value, safe="-._~")` on the value's UTF-8 bytes. */
  function Quote(t: Text): string {
    if t == [] then "" else QuoteByte(t[0]) + Quote(t[1..])
  }

  /** An escape at the front of `s`. */
  function Escape(s: string): Option<nat> {
    if |s| >= 3 && s[0] == '%' && HexValue(s[1]).Some? && HexValue(s[2]).Some? then
      Some(16 * HexValue(s[1]).value + HexValue(s[2]).value)
    else None
  }

  /** `unquote`: escapes become bytes, anything else stands for itself. */
  function Unquote(s: string): seq<nat>
    decreases |s|
  {
    if s == "" then []
    else
      match Escape(s)
      case Some(b) => [b] + Unquote(s[3..])
      case None => [s[0] as int] + Unquote(s[1..])
  }

  lemma HexRound(n: nat)
    requires n < 16
    ensures HexValue(HexDigit(n)) == Some(n)
  {
  }

  lemma QuoteByteRound(b: Byte, s: string)
    ensures Unquote(QuoteByte(b) + s) == [b as nat] + Unquote(s)
  {
    var q := QuoteByte(b);
    if Unreserved(b) {
      assert (q + s)[1..] == s && (q + s)[0] == b as char;
    } else {
      HexRound(b / 16);
      HexRound(b % 16);
      hide HexValue, HexDigit;
      assert (q + s)[3..] == s && (q + s)[..3] == q;
    }
  }

  /** Encoding loses nothing. */
  lemma {:induction false} QuoteRoundTrip(t: Text)
    ensures Unquote(Quote(t)) == t
  {
    if t != [] {
      QuoteByteRound(t[0], Quote(t[1..]));
      QuoteRoundTrip(t[1..]);
      assert t == [t[0]] + t[1..];
    }
  }

  predicate Plain(s: string) {
    forall i :: 0 <= i < |s| ==> s[i] != ':'
  }

  /** An encoded component never holds a separator. */
  lemma {:induction false} QuoteIsPlain(t: Text)
    ensures Plain(Quote(t)) && (t != [] ==> Quote(t) != "")
  {
    if t != [] {
      QuoteIsPlain(t[1..]);
      QuoteByteIsPlain(t[0]);
      hide QuoteByte;
    }
  }

  lemma QuoteByteIsPlain(b: Byte)
    ensures Plain(QuoteByte(b)) && QuoteByte(b) != ""
  {
  }

  lemma QuoteInjective(a: Text, b: Text)
    requires Quote(a) == Quote(b)
    ensures a == b
  {
    QuoteRoundTrip(a);
    QuoteRoundTrip(b);
  }

  // ---- joining and splitting ------------------------------------------------------------

  /** `":".join(fields)` */
  function Join(fields: seq<string>): string {
    if fields == [] then ""
    else if |fields| == 1 then fields[0]
    else fields[0] + ":" + Join(fields[1..])
  }

  /** The position of the first colon, or the length. */
  function Colon(s: string): (n: nat)
    ensures n <= |s| && (n < |s| ==> s[n] == ':') && forall i :: 0 <= i < n ==> s[i] != ':'
  {
    if s == "" || s[0] == ':' then 0 else 1 + Colon(s[1..])
  }

  /** `s.split(":")` */
  function Split(s: string): (r: seq<string>)
    ensures r != []
    decreases |s|
  {
    var n := Colon(s);
    if n == |s| then [s] else [s[..n]] + Split(s[n + 1..])
  }

  predicate AllPlain(fields: seq<string>) {
    forall i :: 0 <= i < |fields| ==> Plain(fields[i])
  }

  lemma ColonAt(f: string, rest: string)
    requires Plain(f)
    ensures Colon(f) == |f| && Colon(f + ":" + rest) == |f|
  {
    var s := f + ":" + rest;
    assert s[|f|] == ':';
    assert forall i :: 0 <= i < |f| ==> s[i] == f[i];
  }

  /** Splitting undoes joining. */
  lemma {:induction false} SplitJoin(fields: seq<string>)
    requires fields != [] && AllPlain(fields)
    ensures Split(Join(fields)) == fields
    decreases |fields|
  {
    var f := fields[0];
    if |fields| == 1 {
      ColonAt(f, "");
    } else {
      var rest := Join(fields[1..]);
      var s := f + ":" + rest;
      assert Join(fields) == s;
      ColonAt(f, rest);
      hide Plain, Colon, Join;
      assert s[..|f|] == f && s[|f| + 1..] == rest;
      SplitJoin(fields[1..]);
      assert fields == [f] + fields[1..];
    }
  }

  lemma JoinInjective(a: seq<string>, b: seq<string>)
    requires a != [] && b != [] && AllPlain(a) && AllPlain(b) && Join(a) == Join(b)
    ensures a == b
  {
    SplitJoin(a);
    SplitJoin(b);
  }

  // ---- identities ----------------------------------------------------------------------

  datatype Digest = Digest(algorithm: string, hex: string)

  datatype AddressKind = FunctionKind | PointKind | SlotKind

  /** The child identities of one program. */
  datatype Child =
    | Image(name: Text, digest: Digest)
    | Address(image: Child, kind: AddressKind, space: Text, address: Text)
    | Variant(slot: Child, digest: Digest)
    | Region(name: Text)
    | Boundary(namespace: Text, name: Text)

  predicate IsHex(s: string) {
    forall i :: 0 <= i < |s| ==> '0' <= s[i] <= '9' || 'a' <= s[i] <= 'f'
  }

  /** A digest in lower case, of the length its algorithm has. */
  predicate ValidDigest(d: Digest) {
    IsHex(d.hex) && ((d.algorithm == "sha1" && |d.hex| == 40) || (d.algorithm == "sha256" && |d.hex| == 64))
  }

  /** What the constructors accept: no empty component, and each part of its own kind. */
  predicate Valid(c: Child) {
    match c
    case Image(name, digest) => name != [] && ValidDigest(digest)
    case Address(image, _, space, address) => image.Image? && Valid(image) && space != [] && address != []
    case Variant(slot, digest) => slot.Address? && slot.kind.SlotKind? && Valid(slot) && ValidDigest(digest)
    case Region(name) => name != []
    case Boundary(namespace, name) => namespace != [] && name != []
  }

  function KindName(k: AddressKind): string {
    match k
    case FunctionKind => "function"
    case PointKind => "point"
    case SlotKind => "runtime-slot"
  }

  /** The fields of a key after the program's own. */
  function Fields(c: Child): seq<string> {
    match c
    case Image(name, d) => ["image", Quote(name), d.algorithm, d.hex]
    case Address(image, kind, space, address) => Fields(image) + [KindName(kind), Quote(space), Quote(address)]
    case Variant(slot, d) => Fields(slot) + ["variant", d.algorithm, d.hex]
    case Region(name) => ["region", Quote(name)]
    case Boundary(namespace, name) => ["boundary", Quote(namespace), Quote(name)]
  }

  /** `key` */
  function Key(program: string, c: Child): string {
    program + ":" + Join(Fields(c))
  }

  lemma NamesArePlain(k: AddressKind)
    ensures Plain("image") && Plain("region") && Plain("boundary") && Plain("variant") && Plain(KindName(k))
    ensures Plain("sha1") && Plain("sha256")
  {
  }

  lemma DigestIsPlain(d: Digest)
    requires ValidDigest(d)
    ensures Plain(d.algorithm) && Plain(d.hex)
  {
    NamesArePlain(PointKind);
  }

  lemma PlainAppend(a: seq<string>, b: seq<string>)
    requires AllPlain(a) && AllPlain(b)
    ensures AllPlain(a + b)
  {
    hide Plain;
  }

  lemma {:induction false} FieldsArePlain(c: Child)
    requires Valid(c)
    ensures AllPlain(Fields(c)) && Fields(c) != []
  {
    NamesArePlain(if c.Address? then c.kind else PointKind);
    hide Plain, ValidDigest;
    match c {
      case Image(name, d) =>
        QuoteIsPlain(name);
        DigestIsPlain(d);
      case Address(image, kind, space, address) =>
        FieldsArePlain(image);
        QuoteIsPlain(space);
        QuoteIsPlain(address);
        PlainAppend(Fields(image), [KindName(kind), Quote(space), Quote(address)]);
      case Variant(slot, d) =>
        FieldsArePlain(slot);
        DigestIsPlain(d);
        PlainAppend(Fields(slot), ["variant", d.algorithm, d.hex]);
      case Region(name) => QuoteIsPlain(name);
      case Boundary(namespace, name) =>
        QuoteIsPlain(namespace);
        QuoteIsPlain(name);
    }
  }

  // ---- keys are injective -----------------------------------------------------------------

  lemma FieldCount(c: Child)
    requires Valid(c)
    ensures c.Image? ==> |Fields(c)| == 4
    ensures c.Address? ==> |Fields(c)| == 7
    ensures c.Variant? ==> |Fields(c)| == 10
    ensures c.Region? ==> |Fields(c)| == 2
    ensures c.Boundary? ==> |Fields(c)| == 3
  {
    hide ValidDigest, Quote;
  }

  lemma AddressParts(c: Child)
    requires Valid(c) && c.Address?
    ensures Fields(c)[..4] == Fields(c.image) && Fields(c)[4] == KindName(c.kind)
    ensures Fields(c)[5] == Quote(c.space) && Fields(c)[6] == Quote(c.address)
  {
    FieldCount(c.image);
    hide Quote;
  }

  lemma VariantParts(c: Child)
    requires Valid(c) && c.Variant?
    ensures |Fields(c)| == 10 && |Fields(c.slot)| == 7
    ensures Fields(c)[..7] == Fields(c.slot) && Fields(c)[8] == c.digest.algorithm && Fields(c)[9] == c.digest.hex
  {
    FieldCount(c);
    FieldCount(c.slot);
    hide Quote;
  }

  lemma KindNameInjective(a: AddressKind, b: AddressKind)
    requires KindName(a) == KindName(b)
    ensures a == b
  {
    assert |KindName(FunctionKind)| == 8 && |KindName(PointKind)| == 5 && |KindName(SlotKind)| == 12;
  }

  lemma {:induction false} FieldsInjective(a: Child, b: Child)
    requires Valid(a) && Valid(b) && Fields(a) == Fields(b)
    ensures a == b
    decreases a
  {
    FieldCount(a);
    FieldCount(b);
    hide Quote, Valid, ValidDigest;
    match a {
      case Image(name, d) =>
        QuoteInjective(name, b.name);
        assert Fields(a)[2] == d.algorithm && Fields(b)[2] == b.digest.algorithm;
        assert Fields(a)[3] == d.hex && Fields(b)[3] == b.digest.hex;
      case Address(image, kind, space, address) =>
        AddressParts(a);
        AddressParts(b);
        ValidParts(a);
        ValidParts(b);
        hide Fields;
        FieldsInjective(image, b.image);
        KindNameInjective(kind, b.kind);
        QuoteInjective(space, b.space);
        QuoteInjective(address, b.address);
      case Variant(slot, d) =>
        VariantParts(a);
        VariantParts(b);
        ValidParts(a);
        ValidParts(b);
        hide Fields;
        FieldsInjective(slot, b.slot);
      case Region(name) =>
        assert Fields(a)[1] == Quote(name) && Fields(b)[1] == Quote(b.name);
        QuoteInjective(name, b.name);
      case Boundary(namespace, name) =>
        assert Fields(a)[1] == Quote(namespace) && Fields(b)[1] == Quote(b.namespace);
        assert Fields(a)[2] == Quote(name) && Fields(b)[2] == Quote(b.name);
        QuoteInjective(namespace, b.namespace);
        QuoteInjective(name, b.name);
    }
  }

  lemma ValidParts(c: Child)
    requires Valid(c)
    ensures c.Address? ==> Valid(c.image)
    ensures c.Variant? ==> Valid(c.slot)
  {
    hide ValidDigest;
  }

  /** Within one program, different identities of any kind have different keys. */
  lemma KeysAreInjective(program: string, a: Child, b: Child)
    requires Valid(a) && Valid(b) && Key(program, a) == Key(program, b)
    ensures a == b
  {
    hide Fields, Join, Valid;
    assert Key(program, a)[|program| + 1..] == Join(Fields(a));
    assert Key(program, b)[|program| + 1..] == Join(Fields(b));
    FieldsArePlain(a);
    FieldsArePlain(b);
    JoinInjective(Fields(a), Fields(b));
    FieldsInjective(a, b);
  }

  // ---- taking keys apart ------------------------------------------------------------------

  predicate StartsWith(s: string, t: string) {
    |t| <= |s| && s[..|t|] == t
  }

  /** `s.split(token, 1)[1]`: what follows the first occurrence. */
  function After(s: string, token: string): Option<string>
    decreases |s|
  {
    if StartsWith(s, token) then Some(s[|token|..])
    else if s == "" then None
    else After(s[1..], token)
  }

  function Token(marker: string): string {
    ":" + marker + ":"
  }

  function UnquoteAll(parts: seq<string>): seq<seq<nat>> {
    if parts == [] then [] else [Unquote(parts[0])] + UnquoteAll(parts[1..])
  }

  predicate NoneEmpty(parts: seq<seq<nat>>) {
    forall i :: 0 <= i < |parts| ==> parts[i] != []
  }

  /** `split_child_identity`; None where it raises. */
  function SplitChild(key: string, marker: string): Option<seq<seq<nat>>> {
    match After(key, Token(marker))
    case None => None
    case Some(tail) =>
      var parts := UnquoteAll(Split(tail));
      if NoneEmpty(parts) then Some(parts) else None
  }

  /** The fields after the first one that equals the marker, has a field before it and one after it. */
  function AfterField(fields: seq<string>, marker: string): Option<seq<string>> {
    if |fields| < 3 then None
    else if fields[1] == marker then Some(fields[2..])
    else AfterField(fields[1..], marker)
  }

  /** A token starts with a colon, so it cannot start inside a plain field. */
  lemma {:induction false} AfterSkips(f: string, rest: string, token: string)
    requires Plain(f) && token != "" && token[0] == ':'
    ensures After(f + rest, token) == After(rest, token)
    decreases |f|
  {
    var s := f + rest;
    if f == "" {
      assert s == rest;
    } else {
      assert s[0] == f[0];
      assert s[1..] == f[1..] + rest;
      AfterSkips(f[1..], rest, token);
    }
  }

  lemma Differs(s: string, t: string, k: nat)
    requires k < |s| && k < |t| && s[k] != t[k]
    ensures !StartsWith(s, t)
  {
    if |t| <= |s| {
      assert s[..|t|][k] == s[k];
    }
  }

  lemma {:induction false} DifferSomewhere(a: string, b: string) returns (k: nat)
    requires |a| == |b| && a != b
    ensures k < |a| && a[k] != b[k]
  {
    if a[0] != b[0] {
      k := 0;
    } else {
      assert a == [a[0]] + a[1..] && b == [b[0]] + b[1..];
      var j := DifferSomewhere(a[1..], b[1..]);
      k := j + 1;
    }
  }

  /** Whether the token stands right here. */
  lemma TokenHere(g: string, rest: string, marker: string)
    requires Plain(g) && Plain(marker)
    ensures var s := ":" + (g + ":" + rest);
            (StartsWith(s, Token(marker)) <==> g == marker) && (g == marker ==> s[|Token(marker)|..] == rest)
  {
    var s, t := ":" + (g + ":" + rest), Token(marker);
    assert s[|g| + 1] == ':' && t[|marker| + 1] == ':';
    if g == marker {
      assert s[..|t|] == t;
    } else if |marker| < |g| {
      assert s[|marker| + 1] == g[|marker|];
      Differs(s, t, |marker| + 1);
    } else if |g| < |marker| {
      assert t[|g| + 1] == marker[|g|];
      Differs(s, t, |g| + 1);
    } else {
      var k := DifferSomewhere(g, marker);
      assert s[k + 1] == g[k] && t[k + 1] == marker[k];
      Differs(s, t, k + 1);
    }
  }

  lemma TokenTooLong(g: string, marker: string)
    requires Plain(g) && Plain(marker)
    ensures !StartsWith(":" + g, Token(marker))
  {
    var s, t := ":" + g, Token(marker);
    assert t[|marker| + 1] == ':';
    if |marker| < |g| {
      assert s[|marker| + 1] == g[|marker|];
      Differs(s, t, |marker| + 1);
    }
  }

  lemma AfterNothing(f: string, token: string)
    requires Plain(f) && token != "" && token[0] == ':'
    ensures After(f, token) == None
  {
    AfterSkips(f, "", token);
    assert f + "" == f;
  }

  lemma AfterStep(s: string, token: string)
    requires s != "" && !StartsWith(s, token)
    ensures After(s, token) == After(s[1..], token)
  {
  }

  lemma AfterFound(s: string, token: string)
    requires StartsWith(s, token)
    ensures After(s, token) == Some(s[|token|..])
  {
  }

  /** Splitting at the first token is looking for the first field equal to the marker. */
  lemma {:induction false} AfterIsField(fields: seq<string>, marker: string)
    requires fields != [] && AllPlain(fields) && Plain(marker)
    ensures After(Join(fields), Token(marker))
            == match AfterField(fields, marker) case None => None case Some(rest) => Some(Join(rest))
    decreases |fields|
  {
    var f, t := fields[0], Token(marker);
    if |fields| == 1 {
      AfterNothing(f, t);
    } else {
      var tail := Join(fields[1..]);
      assert Join(fields) == f + (":" + tail);
      AfterSkips(f, ":" + tail, t);
      var s := ":" + tail;
      assert s[1..] == tail;
      AfterIsField(fields[1..], marker);
      if |fields| == 2 {
        TokenTooLong(fields[1], marker);
        AfterStep(s, t);
      } else {
        var g, rest := fields[1], Join(fields[2..]);
        assert tail == g + ":" + rest;
        TokenHere(g, rest, marker);
        hide After, Join;
        if g == marker {
          AfterFound(s, t);
        } else {
          AfterStep(s, t);
        }
      }
    }
  }

  // ---- when the split finds the right fields ------------------------------------------------

  lemma JoinCons(f: string, rest: seq<string>)
    requires rest != []
    ensures Join([f] + rest) == f + ":" + Join(rest)
  {
    assert ([f] + rest)[1..] == rest;
  }

  lemma PlainCons(f: string, rest: seq<string>)
    requires Plain(f) && AllPlain(rest)
    ensures AllPlain([f] + rest)
  {
    hide Plain;
  }

  lemma {:induction false} JoinSplit(s: string)
    ensures Join(Split(s)) == s && AllPlain(Split(s))
    decreases |s|
  {
    var n := Colon(s);
    assert Plain(s[..n]);
    if n < |s| {
      var f, tail := s[..n], s[n + 1..];
      JoinSplit(tail);
      assert s == f + ":" + tail;
      assert Split(s) == [f] + Split(tail);
      hide *;
      JoinCons(f, Split(tail));
      PlainCons(f, Split(tail));
    } else {
      assert Split(s) == [s];
      assert s[..n] == s;
    }
  }

  lemma {:induction false} JoinAppend(a: seq<string>, b: seq<string>)
    requires a != [] && b != []
    ensures Join(a + b) == Join(a) + ":" + Join(b)
    decreases |a|
  {
    if |a| == 1 {
      assert (a + b)[1..] == b;
    } else {
      JoinAppend(a[1..], b);
      assert (a + b)[1..] == a[1..] + b;
      assert a[0] + ":" + (Join(a[1..]) + ":" + Join(b)) == a[0] + ":" + Join(a[1..]) + ":" + Join(b);
    }
  }

  /** All fields of a key, the program's own first. */
  function KeyFields(program: string, c: Child): seq<string> {
    Split(program) + Fields(c)
  }

  lemma KeyIsJoin(program: string, c: Child)
    requires Valid(c)
    ensures Key(program, c) == Join(KeyFields(program, c)) && AllPlain(KeyFields(program, c)) && KeyFields(program, c) != []
  {
    FieldsArePlain(c);
    JoinSplit(program);
    hide Join, Split, Fields, Plain;
    JoinAppend(Split(program), Fields(c));
  }

  /** The marker stands at field `i` and at no field between the first and it. */
  ghost predicate FirstAt(fields: seq<string>, marker: string, i: nat) {
    forall j :: 1 <= j < i && j < |fields| ==> fields[j] != marker
  }

  lemma {:induction false} AfterFieldFirst(fields: seq<string>, marker: string, i: nat)
    requires 1 <= i < |fields| - 1 && fields[i] == marker
    ensures AfterField(fields, marker).Some?
    ensures FirstAt(fields, marker, i) ==> AfterField(fields, marker) == Some(fields[i + 1..])
    ensures !FirstAt(fields, marker, i) ==> |AfterField(fields, marker).value| > |fields| - i - 1
    decreases |fields|
  {
    if fields[1] != marker {
      var rest := fields[1..];
      AfterFieldFirst(rest, marker, i - 1);
      assert rest[i..] == fields[i + 1..];
      forall j | 1 <= j < i - 1
        ensures rest[j] == fields[j + 1]
      {
      }
      if FirstAt(rest, marker, i - 1) {
        forall j | 1 <= j < i
          ensures fields[j] != marker
        {
          assert j > 1 ==> rest[j - 1] == fields[j];
        }
      }
    }
  }

  lemma {:induction false} UnquoteAllLength(parts: seq<string>)
    ensures |UnquoteAll(parts)| == |parts|
  {
    if parts != [] {
      UnquoteAllLength(parts[1..]);
    }
  }

  lemma AfterFieldPlain(fields: seq<string>, marker: string)
    requires AllPlain(fields) && AfterField(fields, marker).Some?
    ensures AllPlain(AfterField(fields, marker).value) && AfterField(fields, marker).value != []
  {
    hide Plain;
    if fields[1] != marker {
      assert AllPlain(fields[1..]);
      AfterFieldPlain(fields[1..], marker);
    }
  }

  /** Taking a key apart at field `i` gives exactly the fields after it, as long as no earlier field is the marker. */
  lemma SplitChildExact(program: string, c: Child, marker: string, i: nat)
    requires Valid(c) && Plain(marker)
    requires var f := KeyFields(program, c); 1 <= i < |f| - 1 && f[i] == marker && NoneEmpty(UnquoteAll(f[i + 1..]))
    ensures var f := KeyFields(program, c);
            SplitChild(Key(program, c), marker) == Some(UnquoteAll(f[i + 1..])) <==> FirstAt(f, marker, i)
  {
    var f := KeyFields(program, c);
    KeyIsJoin(program, c);
    AfterIsField(f, marker);
    AfterFieldFirst(f, marker, i);
    AfterFieldPlain(f, marker);
    var rest := AfterField(f, marker).value;
    SplitJoin(rest);
    UnquoteAllLength(rest);
    UnquoteAllLength(f[i + 1..]);
    hide KeyFields, After, AfterField, Join, Split, UnquoteAll, FirstAt, Key;
  }

  /** The two components of an address identity. */
  lemma AddressTail(c: Child)
    requires Valid(c) && c.Address?
    ensures |Fields(c)| == 7 && UnquoteAll(Fields(c)[5..]) == [c.space, c.address]
  {
    FieldCount(c);
    AddressParts(c);
    hide Fields, Quote, Unquote;
    var t := Fields(c)[5..];
    assert t == [Quote(c.space), Quote(c.address)];
    QuoteRoundTrip(c.space);
    QuoteRoundTrip(c.address);
    assert t[1..] == [Quote(c.address)] && t[1..][1..] == [];
    assert UnquoteAll(t[1..]) == [c.address];
  }

  /** What stands before an address identity's own marker. */
  lemma AddressHead(program: string, c: Child)
    requires Valid(c) && c.Address?
    ensures var f, n := KeyFields(program, c), |Split(program)|;
            |f| == n + 7 && f[n + 4] == KindName(c.kind) && f[n + 5..] == Fields(c)[5..]
            && f[n] == "image" && f[n + 1] == Quote(c.image.name) && f[n + 2] == c.image.digest.algorithm && f[n + 3] == c.image.digest.hex
            && forall j :: 0 <= j < n ==> f[j] == Split(program)[j]
  {
    FieldCount(c);
    AddressParts(c);
    FieldCount(c.image);
    ImageParts(c.image);
    hide Quote, Split;
    assert Fields(c)[..4] == Fields(c.image);
    forall j | 0 <= j < 4
      ensures Fields(c)[j] == Fields(c.image)[j]
    {
      assert Fields(c)[..4][j] == Fields(c)[j];
    }
    hide Fields;
  }

  lemma ImageParts(c: Child)
    requires Valid(c) && c.Image?
    ensures Fields(c) == ["image", Quote(c.name), c.digest.algorithm, c.digest.hex]
  {
  }

  lemma KindIsNotAlgorithm(k: AddressKind, d: Digest)
    requires ValidDigest(d)
    ensures KindName(k) != "image" && KindName(k) != d.algorithm && KindName(k) != d.hex
  {
    assert |KindName(k)| <= 12;
    assert |"sha1"| == 4 && |"sha256"| == 6 && |KindName(PointKind)| == 5 && |KindName(FunctionKind)| == 8 && |"image"| == 5;
    assert KindName(PointKind)[0] == 'p' && "image"[0] == 'i';
  }

  /** No field of the program's key after its first, and not the image's name, is the marker. */
  ghost predicate Unambiguous(program: string, c: Child)
    requires c.Address? && c.image.Image?
  {
    (forall j :: 1 <= j < |Split(program)| ==> Split(program)[j] != KindName(c.kind)) && Quote(c.image.name) != KindName(c.kind)
  }

  /**
   Splitting an address key at its own kind returns its space and address exactly when the
   marker is neither a later colon-separated part of the program's key nor the image's name.
   */
  lemma AddressSplitsExactly(program: string, c: Child)
    requires Valid(c) && c.Address?
    ensures SplitChild(Key(program, c), KindName(c.kind)) == Some([c.space, c.address]) <==> Unambiguous(program, c)
  {
    var f, n := KeyFields(program, c), |Split(program)|;
    AddressHead(program, c);
    AddressTail(c);
    NamesArePlain(c.kind);
    ValidParts(c);
    ImageDigest(c.image);
    KindIsNotAlgorithm(c.kind, c.image.digest);
    ComponentsPresent(c);
    SplitChildExact(program, c, KindName(c.kind), n + 4);
    hide KeyFields, SplitChild, Fields, Split, Quote, Key, UnquoteAll, KindName;
    FirstAtMeans(f, KindName(c.kind), n);
  }

  lemma ImageDigest(c: Child)
    requires Valid(c) && c.Image?
    ensures ValidDigest(c.digest)
  {
  }

  lemma ComponentsPresent(c: Child)
    requires Valid(c) && c.Address?
    ensures c.space != [] && c.address != [] && NoneEmpty([c.space, c.address])
  {
  }

  /** Looking before field `n + 4` is looking among the first fields and the four in between. */
  lemma FirstAtMeans(f: seq<string>, marker: string, n: nat)
    requires n >= 1 && |f| == n + 7
    ensures FirstAt(f, marker, n + 4)
            <==> (forall j :: 1 <= j < n ==> f[j] != marker)
                 && f[n] != marker && f[n + 1] != marker && f[n + 2] != marker && f[n + 3] != marker
  {
  }

  /** A function in an image called "function" is one that the split gets wrong. */
  lemma ImageNamedFunction(program: string, c: Child)
    requires Valid(c) && c.Address? && c.kind.FunctionKind? && Quote(c.image.name) == "function"
    ensures SplitChild(Key(program, c), "function") != Some([c.space, c.address])
  {
    AddressSplitsExactly(program, c);
    hide SplitChild, Key, Quote;
  }

  // ---- the text of keys ----------------------------------------------------------------------

  /** A letter, a digit or one of `-._~` stands for itself; any other byte is its two hexadecimal digits, the high one first. */
  lemma QuoteByteIs(b: Byte)
    ensures var c := b as char;
            if 'a' <= c <= 'z' || 'A' <= c <= 'Z' || '0' <= c <= '9' || c == '-' || c == '.' || c == '_' || c == '~' then QuoteByte(b) == [c]
            else QuoteByte(b) == ['%', "0123456789ABCDEF"[b / 16], "0123456789ABCDEF"[b % 16]]
  {
    DigitIs(b / 16);
    DigitIs(b % 16);
    hide HexDigit;
  }

  lemma DigitIs(n: nat)
    requires n < 16
    ensures HexDigit(n) == "0123456789ABCDEF"[n]
  {
  }

  lemma JoinTwo(a: string, b: string)
    ensures Join([a, b]) == a + ":" + b
  {
    assert [a, b][1..] == [b];
  }

  lemma JoinThree(a: string, b: string, c: string)
    ensures Join([a, b, c]) == a + ":" + (b + ":" + c)
  {
    assert [a, b, c][1..] == [b, c];
    JoinTwo(b, c);
  }

  lemma JoinFour(a: string, b: string, c: string, d: string)
    ensures Join([a, b, c, d]) == a + ":" + (b + ":" + (c + ":" + d))
  {
    assert [a, b, c, d][1..] == [b, c, d];
    JoinThree(b, c, d);
  }

  lemma Regroup(p: string, mark: string, k: string, rest: string)
    requires mark == ":" + k + ":"
    ensures p + ":" + (k + ":" + rest) == p + mark + rest
  {
  }

  lemma RegroupTail(p: string, q: string, r: string)
    ensures p + (q + ":" + r) == p + q + ":" + r
  {
  }

  /** A key is its program's, its kind and its parts, between colons. */
  lemma ImageKey(program: string, name: Text, d: Digest)
    ensures Key(program, Image(name, d)) == program + ":image:" + Quote(name) + ":" + d.algorithm + ":" + d.hex
  {
    var (q, a, h) := (Quote(name), d.algorithm, d.hex);
    JoinFour("image", q, a, h);
    hide Join, Quote;
    assert ":image:" == ":" + "image" + ":";
    Regroup(program, ":image:", "image", q + ":" + (a + ":" + h));
    RegroupTail(program + ":image:", q, a + ":" + h);
    RegroupTail(program + ":image:" + q + ":", a, h);
  }

  lemma RegionKey(program: string, name: Text)
    ensures Key(program, Region(name)) == program + ":region:" + Quote(name)
  {
    JoinTwo("region", Quote(name));
    hide Join, Quote;
    assert ":region:" == ":" + "region" + ":";
    Regroup(program, ":region:", "region", Quote(name));
  }

  lemma BoundaryKey(program: string, namespace: Text, name: Text)
    ensures Key(program, Boundary(namespace, name)) == program + ":boundary:" + Quote(namespace) + ":" + Quote(name)
  {
    var (q, r) := (Quote(namespace), Quote(name));
    JoinThree("boundary", q, r);
    hide Join, Quote;
    assert ":boundary:" == ":" + "boundary" + ":";
    Regroup(program, ":boundary:", "boundary", q + ":" + r);
    RegroupTail(program + ":boundary:", q, r);
  }

  lemma FieldsNotEmpty(c: Child)
    ensures Fields(c) != []
  {
  }

  function KindText(kind: AddressKind): string {
    match kind
    case FunctionKind => ":function:"
    case PointKind => ":point:"
    case SlotKind => ":runtime-slot:"
  }

  lemma KindTextIs(kind: AddressKind)
    ensures KindText(kind) == ":" + KindName(kind) + ":"
  {
  }

  lemma AddressJoined(image: Child, kind: AddressKind, space: Text, address: Text)
    ensures Join(Fields(Address(image, kind, space, address)))
            == Join(Fields(image)) + ":" + (KindName(kind) + ":" + (Quote(space) + ":" + Quote(address)))
  {
    FieldsNotEmpty(image);
    JoinAppend(Fields(image), [KindName(kind), Quote(space), Quote(address)]);
    JoinThree(KindName(kind), Quote(space), Quote(address));
    hide Join, Quote, KindName;
  }

  lemma KeyIs(program: string, c: Child)
    ensures Key(program, c) == program + ":" + Join(Fields(c))
  {
  }

  /** An address adds its kind, its space and itself to the key of its image. */
  lemma AddressKey(program: string, image: Child, kind: AddressKind, space: Text, address: Text)
    ensures Key(program, Address(image, kind, space, address))
            == Key(program, image) + KindText(kind) + Quote(space) + ":" + Quote(address)
  {
    hide *;
    var (k, q, r) := (KindName(kind), Quote(space), Quote(address));
    KeyIs(program, image);
    KeyIs(program, Address(image, kind, space, address));
    AddressJoined(image, kind, space, address);
    KindTextIs(kind);
    RegroupTail(program + ":", Join(Fields(image)), k + ":" + (q + ":" + r));
    Regroup(program + ":" + Join(Fields(image)), KindText(kind), k, q + ":" + r);
    RegroupTail(program + ":" + Join(Fields(image)) + KindText(kind), q, r);
  }

  lemma VariantJoined(slot: Child, d: Digest)
    ensures Join(Fields(Variant(slot, d))) == Join(Fields(slot)) + ":" + ("variant" + ":" + (d.algorithm + ":" + d.hex))
  {
    FieldsNotEmpty(slot);
    JoinAppend(Fields(slot), ["variant", d.algorithm, d.hex]);
    JoinThree("variant", d.algorithm, d.hex);
    hide Join;
  }

  /** A variant adds its digest to the key of its slot. */
  lemma VariantKey(program: string, slot: Child, d: Digest)
    ensures Key(program, Variant(slot, d)) == Key(program, slot) + ":variant:" + d.algorithm + ":" + d.hex
  {
    hide *;
    var (a, h) := (d.algorithm, d.hex);
    KeyIs(program, slot);
    KeyIs(program, Variant(slot, d));
    VariantJoined(slot, d);
    assert ":variant:" == ":" + "variant" + ":";
    RegroupTail(program + ":", Join(Fields(slot)), "variant" + ":" + (a + ":" + h));
    Regroup(program + ":" + Join(Fields(slot)), ":variant:", "variant", a + ":" + h);
    RegroupTail(program + ":" + Join(Fields(slot)) + ":variant:", a, h);
  }
}
