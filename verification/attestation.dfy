/** Registration bytes of the software authenticator, and readers that take them apart again. */
module Attestation {
  import opened Common
  import opened Cbor

  function Concat(arrays: seq<bytes>): bytes {
    if arrays == [] then [] else arrays[0] + Concat(arrays[1..])
  }

  function TotalLength(arrays: seq<bytes>): nat {
    if arrays == [] then 0 else |arrays[0]| + TotalLength(arrays[1..])
  }

  lemma {:induction false} ConcatLength(arrays: seq<bytes>)
    ensures |Concat(arrays)| == TotalLength(arrays)
  {
    if arrays != [] {
      ConcatLength(arrays[1..]);
    }
  }

  lemma {:induction false} ConcatSnoc(arrays: seq<bytes>, i: nat)
    requires i < |arrays|
    ensures Concat(arrays[..i + 1]) == Concat(arrays[..i]) + arrays[i]
    ensures Concat(arrays[..i + 1]) <= Concat(arrays)
  {
    if i == 0 {
      assert arrays[..1][1..] == [];
      assert Concat(arrays[..1]) == arrays[0];
    } else {
      ConcatSnoc(arrays[1..], i - 1);
      assert arrays[..i + 1][1..] == arrays[1..][..i];
      assert arrays[..i][1..] == arrays[1..][..i - 1];
    }
  }

  /** One buffer, filled array after array. */
  method ConcatBytes(arrays: seq<bytes>) returns (out: array<byte>)
    ensures fresh(out) && out[..] == Concat(arrays)
  {
    var total := 0;
    for i := 0 to |arrays|
      invariant total == |Concat(arrays[..i])|
    {
      ConcatSnoc(arrays, i);
      total := total + |arrays[i]|;
    }
    assert arrays[..|arrays|] == arrays;
    out := new byte[total];
    var off := 0;
    for i := 0 to |arrays|
      invariant off == |Concat(arrays[..i])| <= out.Length
      invariant out[..off] == Concat(arrays[..i])
    {
      ConcatSnoc(arrays, i);
      forall k | 0 <= k < |arrays[i]| {
        out[off + k] := arrays[i][k];
      }
      assert out[..off + |arrays[i]|] == out[..off] + arrays[i];
      off := off + |arrays[i]|;
    }
  }

  // ---- COSE key ----

  /** The pairs are given encoded, as `cborMap` does. */
  function CoseEcdsaPublicKey(x: bytes, y: bytes): bytes {
    CborMap([(CborUint(1), CborUint(2)), (CborUint(3), CborNegInt(-7)), (CborNegInt(-1), CborUint(1)),
             (CborNegInt(-2), CborBytes(x)), (CborNegInt(-3), CborBytes(y))])
  }

  /** Section 13.1.1 of RFC 8152: kty EC2, alg ES256, crv P-256, and the two coordinates. */
  function CoseKey(x: bytes, y: bytes): Item {
    Map(Entry(UInt(1), UInt(2), Entry(UInt(3), NegInt(-7), Entry(NegInt(-1), UInt(1),
        Entry(NegInt(-2), Bytes(x), Entry(NegInt(-3), Bytes(y), End))))))
  }

  lemma EncodeEntry(k: Item, v: Item, more: Entries)
    requires Fits(k) && Fits(v) && EntriesFit(more)
    ensures var es := Entry(k, v, more);
      && EntriesFit(es) && es.Count() == 1 + more.Count()
      && EncodeEntries(es) == [(Encode(k), Encode(v))] + EncodeEntries(more)
  {
  }

  lemma NumbersFit()
    ensures Fits(UInt(1)) && Fits(UInt(2)) && Fits(UInt(3))
    ensures Fits(NegInt(-1)) && Fits(NegInt(-2)) && Fits(NegInt(-3)) && Fits(NegInt(-7))
  {
  }

  lemma CoseKeyFits(x: bytes, y: bytes)
    requires |x| < LIMIT && |y| < LIMIT
    ensures Fits(CoseKey(x, y)) && CoseEcdsaPublicKey(x, y) == Encode(CoseKey(x, y))
  {
    NumbersFit();
    assert Fits(Bytes(x)) && Fits(Bytes(y)) && EntriesFit(End);
    var e5 := Entry(NegInt(-3), Bytes(y), End);
    var e4 := Entry(NegInt(-2), Bytes(x), e5);
    var e3 := Entry(NegInt(-1), UInt(1), e4);
    var e2 := Entry(UInt(3), NegInt(-7), e3);
    var e1 := Entry(UInt(1), UInt(2), e2);
    EncodeEntry(NegInt(-3), Bytes(y), End);
    EncodeEntry(NegInt(-2), Bytes(x), e5);
    EncodeEntry(NegInt(-1), UInt(1), e4);
    EncodeEntry(UInt(3), NegInt(-7), e3);
    EncodeEntry(UInt(1), UInt(2), e2);
    assert Fits(Map(e1));
    assert EncodeEntries(e1)
        == [(CborUint(1), CborUint(2)), (CborUint(3), CborNegInt(-7)), (CborNegInt(-1), CborUint(1)),
            (CborNegInt(-2), CborBytes(x)), (CborNegInt(-3), CborBytes(y))];
  }

  // ---- Attested credential data ----

  const AAGUID: bytes := [0, 0, 0, 0, 0, 0, 0, 0, 0, 0, 0, 0, 0, 0, 0, 0]

  /** `setUint16` keeps the low 16 bits of the length. */
  function HalfBytes(n: nat): (b: bytes)
    ensures |b| == 2 && Half(b[0], b[1]) == n % 0x10000
  {
    var n1 := n / 0x100;
    assert n == n1 / 0x100 * 0x10000 + n1 % 0x100 * 0x100 + n % 0x100;
    [n1 % 0x100, n % 0x100]
  }

  function BuildAttestedCredentialData(credentialId: bytes, cosePublicKey: bytes): bytes {
    AAGUID + HalfBytes(|credentialId|) + credentialId + cosePublicKey
  }

  datatype Attested = Attested(aaguid: bytes, credentialId: bytes, key: bytes)

  /** The reader of the WebAuthn recommendation: the authenticator's id, the credential id and what follows it. */
  function ParseAttested(b: bytes): Option<Attested> {
    if |b| < 18 then None
    else
      var n := Half(b[16], b[17]);
      if 18 + n > |b| then None else Some(Attested(b[..16], b[18..18 + n], b[18 + n..]))
  }

  function Zeros(n: nat): bytes { seq(n, i => 0) }

  lemma AttestedAt(id: bytes, key: bytes)
    ensures var b := BuildAttestedCredentialData(id, key);
      && |b| == 18 + |id| + |key| && b[..16] == Zeros(16) && b[16] == HalfBytes(|id|)[0] && b[17] == HalfBytes(|id|)[1]
      && b[18..18 + |id|] == id && b[18 + |id|..] == key
  {
    var b := BuildAttestedCredentialData(id, key);
    assert b[..16] == AAGUID;
  }

  /** Sixteen zeros, id and key come back exactly when the id is shorter than 65536 bytes. */
  lemma AttestedReadsBack(id: bytes, key: bytes)
    ensures ParseAttested(BuildAttestedCredentialData(id, key)) == Some(Attested(Zeros(16), id, key))
       <==> |id| < 0x10000
  {
    AttestedAt(id, key);
  }

  // ---- Authenticator data ----

  /** `flags & 0xff` and `signCount >>> 0`: both wrap. */
  function BuildAuthData(rpIdHash: bytes, flags: nat, signCount: nat, attested: bytes): bytes
    requires |rpIdHash| == 32
  {
    rpIdHash + [flags % 0x100] + WordBytes(signCount) + attested
  }

  datatype AuthData = AuthData(rpIdHash: bytes, flags: nat, signCount: nat, extra: bytes)

  function ParseAuthData(b: bytes): Option<AuthData> {
    if |b| < 37 then None else Some(AuthData(b[..32], b[32], Word(b[33..37]), b[37..]))
  }

  lemma AuthDataReadsBack(rpIdHash: bytes, flags: nat, signCount: nat, attested: bytes)
    requires |rpIdHash| == 32
    ensures ParseAuthData(BuildAuthData(rpIdHash, flags, signCount, attested))
         == Some(AuthData(rpIdHash, flags % 0x100, signCount % LIMIT, attested))
  {
    var b := BuildAuthData(rpIdHash, flags, signCount, attested);
    assert b[..32] == rpIdHash && b[32] == flags % 0x100;
    assert b[33..37] == WordBytes(signCount) && b[37..] == attested;
  }

  // ---- The attestation object ----

  const FMT: bytes := [102, 109, 116]
  const NONE: bytes := [110, 111, 110, 101]
  const ATT_STMT: bytes := [97, 116, 116, 83, 116, 109, 116]
  const AUTH_DATA: bytes := [97, 117, 116, 104, 68, 97, 116, 97]

  function BuildNoneAttestationObject(authData: bytes): bytes {
    CborMap([(CborText(FMT), CborText(NONE)), (CborText(ATT_STMT), CborMap([])),
      (CborText(AUTH_DATA), CborBytes(authData))])
  }

  function AttestationObject(authData: bytes): Item {
    Map(Entry(Text(FMT), Text(NONE), Entry(Text(ATT_STMT), Map(End), Entry(Text(AUTH_DATA), Bytes(authData), End))))
  }

  lemma ObjectFits(authData: bytes)
    requires |authData| < LIMIT
    ensures Fits(AttestationObject(authData))
      && BuildNoneAttestationObject(authData) == Encode(AttestationObject(authData))
  {
    var e3 := Entry(Text(AUTH_DATA), Bytes(authData), End);
    var e2 := Entry(Text(ATT_STMT), Map(End), e3);
    var e1 := Entry(Text(FMT), Text(NONE), e2);
    assert Fits(Bytes(authData)) && EntriesFit(End);
    assert Fits(Text(FMT)) && Fits(Text(NONE)) && Fits(Text(ATT_STMT)) && Fits(Text(AUTH_DATA)) && Fits(Map(End));
    EncodeEntry(Text(AUTH_DATA), Bytes(authData), End);
    EncodeEntry(Text(ATT_STMT), Map(End), e3);
    EncodeEntry(Text(FMT), Text(NONE), e2);
    assert Fits(Map(e1));
    assert EncodeEntries(e1)
        == [(CborText(FMT), CborText(NONE)), (CborText(ATT_STMT), CborMap([])),
          (CborText(AUTH_DATA), CborBytes(authData))];
  }

  /** The bytes of a text in which every character is ASCII. */
  function Ascii(s: string): (b: bytes)
    requires forall i :: 0 <= i < |s| ==> s[i] as int < 128
    ensures |b| == |s| && forall i :: 0 <= i < |s| ==> b[i] == s[i] as int
  {
    seq(|s|, i requires 0 <= i < |s| => s[i] as int)
  }

  lemma NamesAre()
    ensures Ascii("fmt") == FMT && Ascii("none") == NONE && Ascii("attStmt") == ATT_STMT
      && Ascii("authData") == AUTH_DATA
  {
  }

  /** The value a decoded map has for a key. */
  function ValueOf(es: Entries, key: Item): Option<Item> {
    if es.End? then None else if es.key == key then Some(es.value) else ValueOf(es.more, key)
  }

  /** What a relying party gets out of an attestation object. */
  datatype Registration = Registration(
    rpIdHash: bytes, flags: nat, signCount: nat, aaguid: bytes, credentialId: bytes, x: bytes, y: bytes)

  /** The attestation data, if the format is "none" and there is no statement. */
  function ParseObject(b: bytes): Option<bytes> {
    var whole := Decode(b, 0);
    if whole.None? || whole.value.next != |b| || !whole.value.value.Map? then None
    else
      var es := whole.value.value.entries;
      var data := ValueOf(es, Text(Ascii("authData")));
      if ValueOf(es, Text(Ascii("fmt"))) != Some(Text(Ascii("none")))
        || ValueOf(es, Text(Ascii("attStmt"))) != Some(Map(End))
        || es.Count() != 3 || data.None? || !data.value.Bytes? then None
      else Some(data.value.b)
  }

  /** The coordinates of an ES256 key on P-256, by the labels of section 13.1.1 of RFC 8152. */
  function ParseKey(b: bytes): Option<(bytes, bytes)> {
    var key := Decode(b, 0);
    if key.None? || key.value.next != |b| || !key.value.value.Map? then None
    else
      var es := key.value.value.entries;
      var x, y := ValueOf(es, NegInt(-2)), ValueOf(es, NegInt(-3));
      if ValueOf(es, UInt(1)) != Some(UInt(2)) || ValueOf(es, UInt(3)) != Some(NegInt(-7))
        || ValueOf(es, NegInt(-1)) != Some(UInt(1)) || x.None? || y.None? || !x.value.Bytes? || !y.value.Bytes?
      then None
      else Some((x.value.b, y.value.b))
  }

  function ParseRegistration(b: bytes): Option<Registration> {
    var data := ParseObject(b);
    if data.None? then None
    else
      var auth := ParseAuthData(data.value);
      if auth.None? then None
      else
        var attested := ParseAttested(auth.value.extra);
        if attested.None? then None
        else
          var key := ParseKey(attested.value.key);
          if key.None? then None
          else Some(Registration(auth.value.rpIdHash, auth.value.flags, auth.value.signCount, attested.value.aaguid,
            attested.value.credentialId, key.value.0, key.value.1))
  }

  lemma WholeEncoding(i: Item)
    requires Fits(i)
    ensures Decode(Encode(i), 0) == Some(Decoded(i, |Encode(i)|))
  {
    DecodeUndoesEncode(Encode(i), 0, i);
  }

  lemma ValueOfMore(k: Item, v: Item, more: Entries, key: Item)
    ensures ValueOf(Entry(k, v, more), key) == if k == key then Some(v) else ValueOf(more, key)
    ensures Entry(k, v, more).Count() == 1 + more.Count()
  {
  }

  lemma KeyValues(x: bytes, y: bytes)
    ensures var es := CoseKey(x, y).entries;
      && ValueOf(es, UInt(1)) == Some(UInt(2)) && ValueOf(es, UInt(3)) == Some(NegInt(-7))
      && ValueOf(es, NegInt(-1)) == Some(UInt(1))
      && ValueOf(es, NegInt(-2)) == Some(Bytes(x)) && ValueOf(es, NegInt(-3)) == Some(Bytes(y))
  {
    var e5 := Entry(NegInt(-3), Bytes(y), End);
    var e4 := Entry(NegInt(-2), Bytes(x), e5);
    var e3 := Entry(NegInt(-1), UInt(1), e4);
    var e2 := Entry(UInt(3), NegInt(-7), e3);
    forall key
      ensures ValueOf(CoseKey(x, y).entries, key)
           == if key == UInt(1) then Some(UInt(2)) else if key == UInt(3) then Some(NegInt(-7))
              else if key == NegInt(-1) then Some(UInt(1)) else if key == NegInt(-2) then Some(Bytes(x))
              else if key == NegInt(-3) then Some(Bytes(y)) else None
    {
      ValueOfMore(NegInt(-3), Bytes(y), End, key);
      ValueOfMore(NegInt(-2), Bytes(x), e5, key);
      ValueOfMore(NegInt(-1), UInt(1), e4, key);
      ValueOfMore(UInt(3), NegInt(-7), e3, key);
      ValueOfMore(UInt(1), UInt(2), e2, key);
    }
  }

  lemma KeyReadsBack(x: bytes, y: bytes)
    requires |x| < LIMIT && |y| < LIMIT
    ensures ParseKey(CoseEcdsaPublicKey(x, y)) == Some((x, y))
  {
    CoseKeyFits(x, y);
    WholeEncoding(CoseKey(x, y));
    KeyValues(x, y);
  }

  lemma ObjectValues(authData: bytes)
    ensures var es := AttestationObject(authData).entries;
      && ValueOf(es, Text(FMT)) == Some(Text(NONE)) && ValueOf(es, Text(ATT_STMT)) == Some(Map(End))
      && ValueOf(es, Text(AUTH_DATA)) == Some(Bytes(authData)) && es.Count() == 3
  {
    var e3 := Entry(Text(AUTH_DATA), Bytes(authData), End);
    var e2 := Entry(Text(ATT_STMT), Map(End), e3);
    assert |FMT| == 3 && |ATT_STMT| == 7 && |AUTH_DATA| == 8;
    forall key
      ensures ValueOf(AttestationObject(authData).entries, key)
           == if key == Text(FMT) then Some(Text(NONE)) else if key == Text(ATT_STMT) then Some(Map(End))
              else if key == Text(AUTH_DATA) then Some(Bytes(authData)) else None
      ensures AttestationObject(authData).entries.Count() == 3
    {
      ValueOfMore(Text(AUTH_DATA), Bytes(authData), End, key);
      ValueOfMore(Text(ATT_STMT), Map(End), e3, key);
      ValueOfMore(Text(FMT), Text(NONE), e2, key);
    }
  }

  lemma ObjectReadsBack(authData: bytes)
    requires |authData| < LIMIT
    ensures ParseObject(BuildNoneAttestationObject(authData)) == Some(authData)
  {
    ObjectFits(authData);
    WholeEncoding(AttestationObject(authData));
    NamesAre();
    ObjectValues(authData);
  }

  /** Main result: a registration reads back to its hash, flags, counter, an authenticator id of zeros, its credential
      id and the coordinates of its key. */
  lemma RegistrationReadsBack(rpIdHash: bytes, flags: nat, signCount: nat, id: bytes, x: bytes, y: bytes)
    requires |rpIdHash| == 32 && |id| < 0x10000 && |x| == 32 && |y| == 32
    ensures var data :=
      BuildAuthData(rpIdHash, flags, signCount, BuildAttestedCredentialData(id, CoseEcdsaPublicKey(x, y)));
      ParseRegistration(BuildNoneAttestationObject(data))
      == Some(Registration(rpIdHash, flags % 0x100, signCount % LIMIT, Zeros(16), id, x, y))
  {
    var key := CoseEcdsaPublicKey(x, y);
    var attested := BuildAttestedCredentialData(id, key);
    var data := BuildAuthData(rpIdHash, flags, signCount, attested);
    CoseKeyLength(x, y);
    KeyReadsBack(x, y);
    AttestedReadsBack(id, key);
    AttestedAt(id, key);
    AuthDataReadsBack(rpIdHash, flags, signCount, attested);
    ObjectReadsBack(data);
  }

  lemma CoseKeyLength(x: bytes, y: bytes)
    requires |x| == 32 && |y| == 32
    ensures |CoseEcdsaPublicKey(x, y)| == 77
  {
    var p5: seq<(bytes, bytes)> := [(CborNegInt(-3), CborBytes(y))];
    var p4 := [(CborNegInt(-2), CborBytes(x))] + p5;
    var p3 := [(CborNegInt(-1), CborUint(1))] + p4;
    var p2 := [(CborUint(3), CborNegInt(-7))] + p3;
    FlatCons((CborNegInt(-3), CborBytes(y)), []);
    FlatCons((CborNegInt(-2), CborBytes(x)), p5);
    FlatCons((CborNegInt(-1), CborUint(1)), p4);
    FlatCons((CborUint(3), CborNegInt(-7)), p3);
    FlatCons((CborUint(1), CborUint(2)), p2);
    assert p5 + [] == p5;
    var all := [(CborUint(1), CborUint(2)), (CborUint(3), CborNegInt(-7)), (CborNegInt(-1), CborUint(1)),
                (CborNegInt(-2), CborBytes(x)), (CborNegInt(-3), CborBytes(y))];
    assert p4 == all[3..] && p3 == all[2..] && p2 == all[1..];
    assert all == [all[0]] + p2;
  }

  lemma FlatCons(p: (bytes, bytes), rest: seq<(bytes, bytes)>)
    ensures Flat([p] + rest) == p.0 + p.1 + Flat(rest)
  {
    assert ([p] + rest)[1..] == rest;
  }

  /** Equal bytes, without stopping at the first difference. */
  method BytesEqual(x: seq<bv8>, y: seq<bv8>) returns (same: bool)
    ensures same <==> x == y
  {
    if |x| != |y| { return false; }
    var diff: bv8 := 0;
    for i := 0 to |x|
      invariant diff == 0 <==> x[..i] == y[..i]
    {
      assert x[..i + 1] == x[..i] + [x[i]] && y[..i + 1] == y[..i] + [y[i]];
      assert diff | (x[i] ^ y[i]) == 0 <==> diff == 0 && x[i] == y[i];
      diff := diff | (x[i] ^ y[i]);
    }
    assert x[..|x|] == x && y[..|y|] == y;
    same := diff == 0;
  }
}
