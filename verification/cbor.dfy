/** The CBOR subset the authenticator writes, and a decoder after RFC 8949 that reads it back. */
module Cbor {
  import opened Common

  const LIMIT: nat := 0x1_0000_0000

  /** Head of an item: major type and argument, 32-bit arithmetic as in JavaScript's shifts. */
  function Head(major: nat, n: nat): (h: bytes)
    requires major < 8
    ensures 1 <= |h| <= 5
  {
    if n < 24 then [major * 32 + n]
    else if n < 0x100 then [major * 32 + 24, n]
    else if n < 0x10000 then [major * 32 + 25, n / 0x100, n % 0x100]
    else [major * 32 + 26] + WordBytes(n)
  }

  /** The low 32 bits of n, big-endian. */
  function WordBytes(n: nat): (b: bytes)
    ensures |b| == 4 && Word(b) == n % LIMIT
  {
    var n1 := n / 0x100;
    var n2 := n1 / 0x100;
    var n3 := n2 / 0x100;
    var b := [n3 % 0x100, n2 % 0x100, n1 % 0x100, n % 0x100];
    assert n == n3 / 0x100 * LIMIT + Word(b);
    b
  }

  /** Big-endian 32-bit word. */
  function Word(b: bytes): (n: nat)
    requires |b| == 4
    ensures n < LIMIT
  {
    var b0: int, b1: int, b2: int, b3: int := b[0], b[1], b[2], b[3];
    b0 * 0x1000000 + b1 * 0x10000 + b2 * 0x100 + b3
  }

  function Half(hi: int, lo: int): int { hi * 0x100 + lo }

  datatype HeadAt = HeadAt(major: nat, arg: nat, next: nat)

  /** Section 3 of RFC 8949, reading at a position; indefinite lengths and reserved values are refused. */
  function DecodeHead(b: bytes, p: nat): (r: Option<HeadAt>)
    requires p <= |b|
    ensures r.Some? ==> p < r.value.next <= |b|
  {
    if p == |b| then None
    else
      var major, info, left := b[p] / 32, b[p] % 32, |b| - p;
      if info < 24 then Some(HeadAt(major, info, p + 1))
      else if info == 24 && left >= 2 then Some(HeadAt(major, b[p + 1], p + 2))
      else if info == 25 && left >= 3 then Some(HeadAt(major, Half(b[p + 1], b[p + 2]), p + 3))
      else if info == 26 && left >= 5 then Some(HeadAt(major, Word(b[p + 1..p + 5]), p + 5))
      else if info == 27 && left >= 9
      then Some(HeadAt(major, Word(b[p + 1..p + 5]) * LIMIT + Word(b[p + 5..p + 9]), p + 9))
      else None
  }

  /** These bytes stand at this position. */
  predicate At(b: bytes, p: nat, e: bytes) { p + |e| <= |b| && forall k :: 0 <= k < |e| ==> e[k] == b[p + k] }

  lemma AtParts(b: bytes, p: nat, x: bytes, y: bytes)
    requires At(b, p, x + y)
    ensures At(b, p, x) && At(b, p + |x|, y)
  {
    var e := x + y;
    assert forall k :: 0 <= k < |x| ==> x[k] == e[k];
    assert forall k :: 0 <= k < |y| ==> y[k] == e[|x| + k];
  }

  /** A head reads back as its major type and its argument modulo 2^32. */
  lemma HeadDecodes(b: bytes, p: nat, major: nat, n: nat)
    requires major < 8 && At(b, p, Head(major, n))
    ensures DecodeHead(b, p) == Some(HeadAt(major, n % LIMIT, p + |Head(major, n)|))
  {
    var h := Head(major, n);
    assert h[0] == b[p];
    assert |h| >= 2 ==> h[1] == b[p + 1];
    assert |h| >= 3 ==> h[2] == b[p + 2];
    if 0x10000 <= n {
      assert h[3] == b[p + 3] && h[4] == b[p + 4];
      assert b[p + 1..p + 5] == WordBytes(n);
    }
  }

  /** Heads are exact for arguments that fit 32 bits, and only for those. */
  lemma HeadExactBelowLimit(b: bytes, p: nat, major: nat, n: nat)
    requires major < 8 && At(b, p, Head(major, n))
    ensures DecodeHead(b, p) == Some(HeadAt(major, n, p + |Head(major, n)|)) <==> n < LIMIT
  {
    HeadDecodes(b, p, major, n);
  }

  /** Section 4.2.1: no head with this meaning is shorter. */
  lemma HeadIsShortest(b: bytes, p: nat)
    requires p <= |b| && DecodeHead(b, p).Some? && DecodeHead(b, p).value.arg < LIMIT
    ensures p + |Head(DecodeHead(b, p).value.major, DecodeHead(b, p).value.arg)| <= DecodeHead(b, p).value.next
  {
  }

  // ---- Items ----

  datatype Item =
    | UInt(n: nat)
    | NegInt(value: int)
    | Bytes(b: bytes)
    | Text(utf8: bytes)
    | Map(entries: Entries)

  datatype Entries = End | Entry(key: Item, value: Item, more: Entries) {
    function Count(): nat { if End? then 0 else 1 + more.Count() }
  }

  predicate Fits(i: Item) {
    match i
    case UInt(n) => n < LIMIT
    case NegInt(v) => v < 0 && -1 - v < LIMIT
    case Bytes(b) => |b| < LIMIT
    case Text(b) => |b| < LIMIT
    case Map(es) => es.Count() < LIMIT && EntriesFit(es)
  }

  predicate EntriesFit(es: Entries) {
    es.Entry? ==> Fits(es.key) && Fits(es.value) && EntriesFit(es.more)
  }

  function CborUint(n: nat): bytes { Head(0, n) }

  function CborNegInt(value: int): bytes
    requires value < 0
  {
    Head(1, -1 - value)
  }

  function CborBytes(b: bytes): bytes { Head(2, |b|) + b }

  function CborText(utf8: bytes): bytes { Head(3, |utf8|) + utf8 }

  /** A map from pairs that are encoded already. */
  function CborMap(pairs: seq<(bytes, bytes)>): bytes { Head(5, |pairs|) + Flat(pairs) }

  function Flat(pairs: seq<(bytes, bytes)>): bytes {
    if pairs == [] then [] else pairs[0].0 + pairs[0].1 + Flat(pairs[1..])
  }

  function Encode(i: Item): bytes
    requires Fits(i)
  {
    match i
    case UInt(n) => CborUint(n)
    case NegInt(v) => CborNegInt(v)
    case Bytes(b) => CborBytes(b)
    case Text(b) => CborText(b)
    case Map(es) => CborMap(EncodeEntries(es))
  }

  function EncodeEntries(es: Entries): (r: seq<(bytes, bytes)>)
    requires EntriesFit(es)
    ensures |r| == es.Count()
  {
    if es.End? then [] else [(Encode(es.key), Encode(es.value))] + EncodeEntries(es.more)
  }

  datatype Decoded<T> = Decoded(value: T, next: nat)

  function Decode(b: bytes, p: nat): (r: Option<Decoded<Item>>)
    requires p <= |b|
    ensures r.Some? ==> p < r.value.next <= |b|
    decreases |b| - p, 0
  {
    var head := DecodeHead(b, p);
    if head.None? then None
    else
      var HeadAt(major, arg, next) := head.value;
      if major == 0 then Some(Decoded(UInt(arg), next))
      else if major == 1 then Some(Decoded(NegInt(-1 - arg), next))
      else if major == 2 && next + arg <= |b| then Some(Decoded(Bytes(b[next..next + arg]), next + arg))
      else if major == 3 && next + arg <= |b| then Some(Decoded(Text(b[next..next + arg]), next + arg))
      else if major == 5 then
        var body := DecodeEntries(b, next, arg);
        if body.None? then None else Some(Decoded(Map(body.value.value), body.value.next))
      else None
  }

  function DecodeEntries(b: bytes, p: nat, n: nat): (r: Option<Decoded<Entries>>)
    requires p <= |b|
    ensures r.Some? ==> p <= r.value.next <= |b|
    decreases |b| - p, 1
  {
    if n == 0 then Some(Decoded(End, p))
    else
      var key := Decode(b, p);
      if key.None? then None
      else
        var value := Decode(b, key.value.next);
        if value.None? then None
        else
          var more := DecodeEntries(b, value.value.next, n - 1);
          if more.None? then None
          else Some(Decoded(Entry(key.value.value, value.value.value, more.value.value), more.value.next))
  }

  /** Main result: wherever an encoded item stands, it decodes to itself and to exactly its own bytes. */
  lemma {:induction false} DecodeUndoesEncode(b: bytes, p: nat, i: Item)
    requires Fits(i) && At(b, p, Encode(i))
    ensures Decode(b, p) == Some(Decoded(i, p + |Encode(i)|))
    decreases i, 2
  {
    match i {
      case UInt(n) => UIntDecodes(b, p, n);
      case NegInt(v) => NegIntDecodes(b, p, v);
      case Bytes(c) => StringDecodes(b, p, 2, c);
      case Text(c) => StringDecodes(b, p, 3, c);
      case Map(es) => MapDecodes(b, p, es);
    }
  }

  lemma UIntDecodes(b: bytes, p: nat, n: nat)
    requires n < LIMIT && At(b, p, CborUint(n))
    ensures Decode(b, p) == Some(Decoded(UInt(n), p + |CborUint(n)|))
  {
    HeadExactBelowLimit(b, p, 0, n);
  }

  lemma NegIntDecodes(b: bytes, p: nat, v: int)
    requires v < 0 && -1 - v < LIMIT && At(b, p, CborNegInt(v))
    ensures Decode(b, p) == Some(Decoded(NegInt(v), p + |CborNegInt(v)|))
  {
    HeadExactBelowLimit(b, p, 1, -1 - v);
  }

  lemma {:induction false} MapDecodes(b: bytes, p: nat, es: Entries)
    requires Fits(Map(es)) && At(b, p, Encode(Map(es)))
    ensures Decode(b, p) == Some(Decoded(Map(es), p + |Encode(Map(es))|))
    decreases es, 3
  {
    var n, body := es.Count(), Flat(EncodeEntries(es));
    var next, end := p + |Head(5, n)|, p + |Head(5, n)| + |body|;
    assert At(b, p, Head(5, n) + body);
    AtParts(b, p, Head(5, n), body);
    assert DecodeHead(b, p) == Some(HeadAt(5, n, next)) by { HeadExactBelowLimit(b, p, 5, n); }
    assert DecodeEntries(b, next, n) == Some(Decoded(es, end)) by { EntriesDecode(b, next, es); }
    MapStep(b, p, n, next, es, end);
  }

  lemma MapStep(b: bytes, p: nat, n: nat, next: nat, es: Entries, end: nat)
    requires p <= |b| && DecodeHead(b, p) == Some(HeadAt(5, n, next))
    requires DecodeEntries(b, next, n) == Some(Decoded(es, end))
    ensures Decode(b, p) == Some(Decoded(Map(es), end))
  {
  }

  lemma StringDecodes(b: bytes, p: nat, major: nat, c: bytes)
    requires (major == 2 || major == 3) && |c| < LIMIT && At(b, p, Head(major, |c|) + c)
    ensures Decode(b, p) == Some(Decoded(if major == 2 then Bytes(c) else Text(c), p + |Head(major, |c|)| + |c|))
  {
    var h := Head(major, |c|);
    AtParts(b, p, h, c);
    HeadDecodes(b, p, major, |c|);
    assert b[p + |h|..p + |h| + |c|] == c;
  }

  lemma {:induction false} EntriesDecode(b: bytes, p: nat, es: Entries)
    requires EntriesFit(es) && At(b, p, Flat(EncodeEntries(es)))
    ensures DecodeEntries(b, p, es.Count()) == Some(Decoded(es, p + |Flat(EncodeEntries(es))|))
    decreases es, 1
  {
    if es.Entry? {
      EntryDecodes(b, p, es, p + |Flat(EncodeEntries(es))|);
    }
  }

  lemma {:induction false} EntryDecodes(b: bytes, p: nat, es: Entries, end: nat)
    requires es.Entry? && EntriesFit(es) && At(b, p, Flat(EncodeEntries(es))) && end == p + |Flat(EncodeEntries(es))|
    ensures DecodeEntries(b, p, es.Count()) == Some(Decoded(es, end))
    decreases es, 0
  {
    var p1 := p + |Encode(es.key)|;
    var p2 := p1 + |Encode(es.value)|;
    EntryParts(b, p, es);
    assert Decode(b, p) == Some(Decoded(es.key, p1)) by { DecodeUndoesEncode(b, p, es.key); }
    assert Decode(b, p1) == Some(Decoded(es.value, p2)) by { DecodeUndoesEncode(b, p1, es.value); }
    assert DecodeEntries(b, p2, es.more.Count()) == Some(Decoded(es.more, end)) by { RestDecodes(b, p2, es.more, end); }
    EntryStep(b, p, p1, p2, end, es);
  }

  lemma {:induction false} RestDecodes(b: bytes, p: nat, es: Entries, end: nat)
    requires EntriesFit(es) && At(b, p, Flat(EncodeEntries(es))) && end == p + |Flat(EncodeEntries(es))|
    ensures DecodeEntries(b, p, es.Count()) == Some(Decoded(es, end))
    decreases es, 2
  {
    EntriesDecode(b, p, es);
  }

  lemma EntryParts(b: bytes, p: nat, es: Entries)
    requires es.Entry? && EntriesFit(es) && At(b, p, Flat(EncodeEntries(es)))
    ensures At(b, p, Encode(es.key)) && At(b, p + |Encode(es.key)|, Encode(es.value))
    ensures At(b, p + |Encode(es.key)| + |Encode(es.value)|, Flat(EncodeEntries(es.more)))
    ensures |Flat(EncodeEntries(es))| == |Encode(es.key)| + |Encode(es.value)| + |Flat(EncodeEntries(es.more))|
  {
    FlatEntry(es);
    AtParts(b, p, Encode(es.key) + Encode(es.value), Flat(EncodeEntries(es.more)));
    AtParts(b, p, Encode(es.key), Encode(es.value));
  }

  lemma EntryStep(b: bytes, p: nat, p1: nat, p2: nat, end: nat, es: Entries)
    requires es.Entry? && p <= |b| && Decode(b, p) == Some(Decoded(es.key, p1))
    requires Decode(b, p1) == Some(Decoded(es.value, p2))
    requires DecodeEntries(b, p2, es.more.Count()) == Some(Decoded(es.more, end))
    ensures DecodeEntries(b, p, es.Count()) == Some(Decoded(es, end))
  {
  }

  lemma FlatEntry(es: Entries)
    requires EntriesFit(es) && es.Entry?
    ensures Flat(EncodeEntries(es)) == Encode(es.key) + Encode(es.value) + Flat(EncodeEntries(es.more))
  {
    assert EncodeEntries(es)[1..] == EncodeEntries(es.more);
  }

  /** No two items share an encoding, and none is a prefix of another's. */
  lemma EncodingIsPrefixFree(a: Item, b: Item)
    requires Fits(a) && Fits(b) && Encode(a) <= Encode(b)
    ensures a == b
  {
    DecodeUndoesEncode(Encode(b), 0, a);
    DecodeUndoesEncode(Encode(b), 0, b);
  }
}
