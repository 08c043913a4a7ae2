/** Raw ECDSA signatures as DER: two minimal integers in a sequence. */
module EcdsaDer {
  import opened Common

  function BigEndian(b: bytes): nat {
    if b == [] then 0 else BigEndian(b[..|b| - 1]) * 0x100 + b[|b| - 1]
  }

  function Power(n: nat): nat { if n == 0 then 1 else 0x100 * Power(n - 1) }

  /** Leading zeros off, but never the last byte. */
  function Trimmed(b: bytes): (v: bytes)
    ensures |v| <= |b| && (b != [] ==> v != [])
    ensures |v| > 1 ==> v[0] != 0
  {
    if |b| > 1 && b[0] == 0 then Trimmed(b[1..]) else b
  }

  /** A clear top bit keeps the number non-negative. */
  function Content(b: bytes): (w: bytes)
    requires b != []
    ensures w != [] && |w| <= |b| + 1 && w[0] < 0x80
  {
    var v := Trimmed(b);
    if v[0] >= 0x80 then [0] + v else v
  }

  function DerInteger(b: bytes): (e: bytes)
    requires 0 < |b| < 0x7F
    ensures |e| <= |b| + 3
  {
    [0x02, |Content(b)|] + Content(b)
  }

  function DerSignature(raw: bytes): bytes
    requires |raw| == 64
  {
    var r, s := DerInteger(raw[..32]), DerInteger(raw[32..]);
    [0x30, |r| + |s|] + r + s
  }

  // ---- The code's own loop ----

  lemma {:induction false} TrimmedSkips(b: bytes, i: nat)
    requires i < |b| && forall k :: 0 <= k < i ==> b[k] == 0
    ensures Trimmed(b) == Trimmed(b[i..])
  {
    if i > 0 {
      TrimmedSkips(b[1..], i - 1);
      assert b[1..][i - 1..] == b[i..];
    }
  }

  method EncodeInteger(b: bytes) returns (e: bytes)
    requires 0 < |b| < 0x7F
    ensures e == DerInteger(b)
  {
    var i := 0;
    while i < |b| - 1 && b[i] == 0
      invariant 0 <= i < |b| && forall k :: 0 <= k < i ==> b[k] == 0
    {
      i := i + 1;
    }
    TrimmedSkips(b, i);
    var v := b[i..];
    if v[0] >= 0x80 {
      v := [0] + v;
    }
    e := [0x02, |v|] + v;
  }

  method RawEcdsaSigToDer(raw: bytes) returns (der: bytes)
    requires |raw| == 64
    ensures der == DerSignature(raw)
    ensures 8 <= |der| <= 72
    ensures DecodeSignature(der) == Some((BigEndian(raw[..32]), BigEndian(raw[32..])))
  {
    var r := EncodeInteger(raw[..32]);
    var s := EncodeInteger(raw[32..]);
    der := [0x30, |r| + |s|] + r + s;
    SignatureDecodes(raw);
  }

  // ---- A strict decoder ----

  /** Two's complement, section 8.3.3 of X.690. */
  function Signed(c: bytes): int
    requires c != []
  {
    if c[0] >= 0x80 then BigEndian(c) - Power(|c|) else BigEndian(c)
  }

  /** Section 8.3.2: the first nine bits are neither all zero nor all one. */
  predicate Minimal(c: bytes) {
    |c| > 1 ==> !(c[0] == 0 && c[1] < 0x80) && !(c[0] == 0xFF && c[1] >= 0x80)
  }

  /** One integer with a one-byte length, and where it ends. */
  function DecodeInteger(b: bytes, p: nat): (r: Option<(int, nat)>)
    ensures r.Some? ==> r.value.1 <= |b|
  {
    if p + 3 > |b| || b[p] != 0x02 || b[p + 1] == 0 || b[p + 1] >= 0x80 || p + 2 + b[p + 1] as int > |b| then None
    else
      var end := p + 2 + b[p + 1] as int;
      if Minimal(b[p + 2..end]) then Some((Signed(b[p + 2..end]), end)) else None
  }

  function DecodeSignature(b: bytes): Option<(int, int)> {
    if |b| < 2 || b[0] != 0x30 || b[1] >= 0x80 || b[1] as int + 2 != |b| then None
    else
      var r := DecodeInteger(b, 2);
      if r.None? then None
      else
        var s := DecodeInteger(b, r.value.1);
        if s.None? || s.value.1 != |b| then None else Some((r.value.0, s.value.0))
  }

  lemma {:induction false} ZeroInFront(b: bytes)
    ensures BigEndian([0] + b) == BigEndian(b)
  {
    if b == [] {
      var zero: bytes := [0];
      assert [0] + b == zero && zero[..0] == [];
    } else {
      ZeroInFront(b[..|b| - 1]);
      assert ([0] + b)[..|b|] == [0] + b[..|b| - 1];
    }
  }

  lemma {:induction false} TrimmedValue(b: bytes)
    ensures BigEndian(Trimmed(b)) == BigEndian(b)
  {
    if |b| > 1 && b[0] == 0 {
      TrimmedValue(b[1..]);
      assert b == [0] + b[1..];
      ZeroInFront(b[1..]);
    }
  }

  lemma ContentIsMinimalValue(b: bytes)
    requires b != []
    ensures Minimal(Content(b)) && Signed(Content(b)) == BigEndian(b)
  {
    TrimmedValue(b);
    ZeroInFront(Trimmed(b));
  }

  lemma PartsAt(b: bytes, p: nat, e: bytes)
    requires 2 <= |e| && p + |e| <= |b| && b[p..p + |e|] == e
    ensures b[p] == e[0] && b[p + 1] == e[1] && b[p + 2..p + |e|] == e[2..]
  {
    assert b[p..p + |e|][0] == b[p] && b[p..p + |e|][1] == b[p + 1];
    assert b[p..p + |e|][2..] == b[p + 2..p + |e|];
  }

  lemma IntegerDecodes(b: bytes, p: nat, x: bytes)
    requires 0 < |x| < 0x7F && p + |DerInteger(x)| <= |b| && b[p..p + |DerInteger(x)|] == DerInteger(x)
    ensures DecodeInteger(b, p) == Some((BigEndian(x), p + |DerInteger(x)|))
  {
    var e, c := DerInteger(x), Content(x);
    ContentIsMinimalValue(x);
    PartsAt(b, p, e);
    assert e[2..] == c && e[1] as int == |c| && |e| == 2 + |c|;
    IntegerAt(b, p, c);
  }

  lemma IntegerAt(b: bytes, p: nat, c: bytes)
    requires 0 < |c| < 0x80 && p + 2 + |c| <= |b|
    requires b[p] == 0x02 && b[p + 1] as int == |c| && b[p + 2..p + 2 + |c|] == c && Minimal(c)
    ensures DecodeInteger(b, p) == Some((Signed(c), p + 2 + |c|))
  {
  }

  /** Main result: every 64-byte signature keeps its two numbers, in at most 72 bytes. */
  lemma SignatureDecodes(raw: bytes)
    requires |raw| == 64
    ensures 8 <= |DerSignature(raw)| <= 72
    ensures DecodeSignature(DerSignature(raw)) == Some((BigEndian(raw[..32]), BigEndian(raw[32..])))
  {
    var r, s, b := DerInteger(raw[..32]), DerInteger(raw[32..]), DerSignature(raw);
    assert b[2..2 + |r|] == r && b[2 + |r|..2 + |r| + |s|] == s;
    IntegerDecodes(b, 2, raw[..32]);
    IntegerDecodes(b, 2 + |r|, raw[32..]);
  }

  lemma {:induction false} BigEndianInjective(a: bytes, b: bytes)
    requires |a| == |b| && BigEndian(a) == BigEndian(b)
    ensures a == b
  {
    if a != [] {
      BigEndianInjective(a[..|a| - 1], b[..|b| - 1]);
      assert a == a[..|a| - 1] + [a[|a| - 1]] && b == b[..|b| - 1] + [b[|b| - 1]];
    }
  }

  /** No two signatures share a DER form. */
  lemma DerTellsSignaturesApart(a: bytes, b: bytes)
    requires |a| == 64 && |b| == 64 && DerSignature(a) == DerSignature(b)
    ensures a == b
  {
    SignatureDecodes(a);
    SignatureDecodes(b);
    BigEndianInjective(a[..32], b[..32]);
    BigEndianInjective(a[32..], b[32..]);
    assert a == a[..32] + a[32..] && b == b[..32] + b[32..];
  }
}
