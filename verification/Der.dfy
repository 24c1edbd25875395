/**
 * ES256 signatures from r || s to DER (examples/hosts/postgres/src/jwt-validator.ts), against
 * a decoder of its own: section 3.4 of RFC 7518, section 8.3 of X.690, section 2.2.3 of RFC 3279.
 */
module Der {
  import opened Wrappers

  newtype Byte = b: int | 0 <= b < 256
  type Bytes = seq<Byte>

  const INTEGER: Byte := 0x02
  const SEQUENCE: Byte := 0x30

  // -------------------------------------------------------------------- the encoder

  function DropZeros(b: Bytes): Bytes {
    if |b| > 1 && b[0] == 0 then DropZeros(b[1..]) else b
  }

  function Trimmed(b: Bytes): (out: Bytes)
    requires b != []
  {
    NonEmpty(b);
    var out := DropZeros(b);
    if out[0] >= 0x80 then [0] + out else out
  }

  lemma {:induction false} NonEmpty(b: Bytes)
    requires b != []
    ensures 1 <= |DropZeros(b)| <= |b|
  {
    if |b| > 1 && b[0] == 0 { NonEmpty(b[1..]); }
  }

  /** The bytes of an INTEGER with the given content. */
  function Tagged(tag: Byte, content: Bytes): Bytes
    requires |content| < 256
  {
    [tag, |content| as Byte] + content
  }

  /** derEncodeEcdsa on the two halves. */
  function Encode(r: Bytes, s: Bytes): (der: Bytes)
    requires 1 <= |r| <= 32 && 1 <= |s| <= 32
  {
    TrimmedLength(r);
    TrimmedLength(s);
    Tagged(SEQUENCE, Tagged(INTEGER, Trimmed(r)) + Tagged(INTEGER, Trimmed(s)))
  }

  datatype Algorithm = RS256 | ES256

  /** normalizeSignature; None where it throws. */
  function Normalized(alg: Algorithm, raw: Bytes): Option<Bytes> {
    if alg.RS256? then Some(raw)
    else if |raw| != 64 then None
    else Some(Encode(raw[..32], raw[32..]))
  }

  lemma {:induction false} TrimmedLength(b: Bytes)
    requires b != []
    ensures 1 <= |Trimmed(b)| <= |b| + 1
  {
    NonEmpty(b);
  }

  /** The loop the source trims with. */
  method Trim(b: Bytes) returns (out: Bytes)
    requires b != []
    ensures out == Trimmed(b)
  {
    var i := 0;
    while i < |b| - 1 && b[i] == 0
      invariant 0 <= i < |b|
      invariant DropZeros(b[i..]) == DropZeros(b)
    {
      assert b[i..][1..] == b[i + 1..];
      i := i + 1;
    }
    out := b[i..];
    if out[0] >= 0x80 { out := [0] + out; }
  }

  method NormalizeSignature(alg: Algorithm, raw: Bytes) returns (der: Option<Bytes>)
    ensures der == Normalized(alg, raw)
  {
    if alg != ES256 { return Some(raw); }
    if |raw| != 64 { return None; }
    var rb := Trim(raw[..32]);
    var sb := Trim(raw[32..]);
    TrimmedLength(raw[..32]);
    TrimmedLength(raw[32..]);
    var rEnc := [INTEGER, |rb| as Byte] + rb;
    var sEnc := [INTEGER, |sb| as Byte] + sb;
    var seqBody := rEnc + sEnc;
    der := Some([SEQUENCE, |seqBody| as Byte] + seqBody);
  }

  // ------------------------------------------------------------------- the decoder

  /** Big-endian, unsigned. */
  function Value(b: Bytes): nat {
    if b == [] then 0 else 256 * Value(b[..|b| - 1]) + b[|b| - 1] as nat
  }

  function Pow256(n: nat): nat { if n == 0 then 1 else 256 * Pow256(n - 1) }

  /** Two's complement, as INTEGER contents are read. */
  function SignedValue(b: Bytes): int
    requires b != []
  {
    if b[0] >= 0x80 then Value(b) - Pow256(|b|) else Value(b)
  }

  /** The first nine bits are neither all zero nor all one. */
  predicate Minimal(b: Bytes) {
    b != [] && (|b| > 1 ==> !(b[0] == 0 && b[1] < 0x80) && !(b[0] == 0xFF && b[1] >= 0x80))
  }

  /** One tag, one short-form length, its content, and what follows. */
  function ReadTagged(tag: Byte, d: Bytes): Option<(Bytes, Bytes)> {
    if |d| >= 2 && d[0] == tag && d[1] < 0x80 && d[1] as int <= |d| - 2 then
      Some((d[2..2 + d[1] as int], d[2 + d[1] as int..]))
    else None
  }

  function ReadInteger(d: Bytes): Option<(int, Bytes)> {
    var t := ReadTagged(INTEGER, d);
    if t.None? || !Minimal(t.value.0) then None else Some((SignedValue(t.value.0), t.value.1))
  }

  /** SEQUENCE { r INTEGER, s INTEGER } and nothing else. */
  function Decode(d: Bytes): Option<(int, int)> {
    var t := ReadTagged(SEQUENCE, d);
    if t.None? || t.value.1 != [] then None
    else
      var r := ReadInteger(t.value.0);
      if r.None? then None
      else
        var s := ReadInteger(r.value.1);
        if s.None? || s.value.1 != [] then None else Some((r.value.0, s.value.0))
  }

  // --------------------------------------------------------------------- values

  lemma {:induction false} ValueOfCons(x: Byte, b: Bytes)
    ensures Value([x] + b) == x as nat * Pow256(|b|) + Value(b)
  {
    var all := [x] + b;
    if b == [] {
      assert all == [x] && all[..0] == [];
    } else {
      assert all[..|all| - 1] == [x] + b[..|b| - 1];
      ValueOfCons(x, b[..|b| - 1]);
    }
  }

  lemma {:induction false} ValueBounded(b: Bytes)
    ensures Value(b) < Pow256(|b|)
  {
    if b != [] { ValueBounded(b[..|b| - 1]); }
  }

  lemma {:induction false} DropZerosKeepsValue(b: Bytes)
    ensures Value(DropZeros(b)) == Value(b)
  {
    if |b| > 1 && b[0] == 0 {
      assert b == [b[0]] + b[1..];
      ValueOfCons(0, b[1..]);
      DropZerosKeepsValue(b[1..]);
    }
  }

  lemma {:induction false} DropZerosShort(b: Bytes)
    ensures |DropZeros(b)| > 1 ==> DropZeros(b)[0] != 0
  {
    if |b| > 1 && b[0] == 0 { DropZerosShort(b[1..]); }
  }

  /** What is trimmed is a minimal, non-negative INTEGER content of the same value. */
  lemma {:induction false} TrimmedIsMinimal(b: Bytes)
    requires b != []
    ensures Minimal(Trimmed(b)) && Trimmed(b)[0] < 0x80
    ensures SignedValue(Trimmed(b)) == Value(b)
  {
    NonEmpty(b);
    DropZerosShort(b);
    DropZerosKeepsValue(b);
    ValueOfCons(0, DropZeros(b));
  }

  lemma {:induction false} SameLengthSameValue(a: Bytes, b: Bytes)
    requires |a| == |b| && Value(a) == Value(b)
    ensures a == b
  {
    if a != [] {
      SameLengthSameValue(a[..|a| - 1], b[..|b| - 1]);
      assert a == a[..|a| - 1] + [a[|a| - 1]] && b == b[..|b| - 1] + [b[|b| - 1]];
    }
  }

  lemma {:induction false} PowGrows(m: nat, n: nat)
    requires m <= n
    ensures Pow256(m) <= Pow256(n)
  {
    if m < n { PowGrows(m, n - 1); }
  }

  lemma {:induction false} AtLeast(x: nat, k: nat, p: nat)
    requires x >= k
    ensures x * p >= k * p
  {
    assert x * p == k * p + (x - k) * p;
  }

  lemma {:induction false} OneMore(x: nat, p: nat)
    ensures (x + 1) * p == x * p + p
  {}

  lemma {:induction false} LeadingByte(b: Bytes)
    requires b != []
    ensures b[0] as nat * Pow256(|b| - 1) <= Value(b) < (b[0] as nat + 1) * Pow256(|b| - 1)
  {
    assert b == [b[0]] + b[1..];
    ValueOfCons(b[0], b[1..]);
    ValueBounded(b[1..]);
    OneMore(b[0] as nat, Pow256(|b| - 1));
  }

  /** A minimal non-negative content is at least what any shorter non-negative one can be. */
  lemma {:induction false} MinimalIsLarge(b: Bytes)
    requires Minimal(b) && b[0] < 0x80 && |b| > 1
    ensures Value(b) >= 128 * Pow256(|b| - 2)
  {
    if b[0] == 0 {
      assert b == [0] + b[1..];
      ValueOfCons(0, b[1..]);
      LeadingByte(b[1..]);
      AtLeast(b[1] as nat, 128, Pow256(|b| - 2));
    } else {
      LeadingByte(b);
      AtLeast(b[0] as nat, 1, Pow256(|b| - 1));
    }
  }

  lemma {:induction false} NonNegativeIsSmall(a: Bytes)
    requires a != [] && a[0] < 0x80
    ensures Value(a) < 128 * Pow256(|a| - 1)
  {
    LeadingByte(a);
    AtLeast(128, a[0] as nat + 1, Pow256(|a| - 1));
  }

  lemma {:induction false} ShorterIsSmaller(a: Bytes, b: Bytes)
    requires Minimal(b) && b[0] < 0x80 && a != [] && a[0] < 0x80 && |a| < |b|
    ensures Value(a) < Value(b)
  {
    NonNegativeIsSmall(a);
    PowGrows(|a| - 1, |b| - 2);
    MinimalIsLarge(b);
  }

  lemma {:induction false} MinimalUnique(a: Bytes, b: Bytes)
    requires Minimal(a) && Minimal(b) && a[0] < 0x80 && b[0] < 0x80 && Value(a) == Value(b)
    ensures a == b
  {
    if |a| < |b| {
      ShorterIsSmaller(a, b);
    } else if |b| < |a| {
      ShorterIsSmaller(b, a);
    } else {
      SameLengthSameValue(a, b);
    }
  }

  // -------------------------------------------------------------------- round trips

  lemma {:induction false} TaggedReads(tag: Byte, content: Bytes, rest: Bytes)
    requires |content| < 0x80
    ensures ReadTagged(tag, Tagged(tag, content) + rest) == Some((content, rest))
  {
    var d := Tagged(tag, content) + rest;
    assert d[2..2 + |content|] == content && d[2 + |content|..] == rest;
  }

  lemma {:induction false} IntegerReads(b: Bytes, rest: Bytes)
    requires 1 <= |b| <= 32
    ensures |Trimmed(b)| <= 33 && ReadInteger(Tagged(INTEGER, Trimmed(b)) + rest) == Some((Value(b) as int, rest))
  {
    TrimmedLength(b);
    TaggedReads(INTEGER, Trimmed(b), rest);
    TrimmedIsMinimal(b);
  }

  /** Encoding decodes to the same two numbers, in at most 72 bytes, so one-byte lengths suffice. */
  lemma {:induction false} EncodeDecodes(r: Bytes, s: Bytes)
    requires 1 <= |r| <= 32 && 1 <= |s| <= 32
    ensures Decode(Encode(r, s)) == Some((Value(r) as int, Value(s) as int))
    ensures |Encode(r, s)| <= 72
  {
    TrimmedLength(r);
    TrimmedLength(s);
    var rEnc, sEnc := Tagged(INTEGER, Trimmed(r)), Tagged(INTEGER, Trimmed(s));
    TaggedReads(SEQUENCE, rEnc + sEnc, []);
    assert Encode(r, s) + [] == Encode(r, s) && sEnc + [] == sEnc;
    IntegerReads(r, sEnc);
    IntegerReads(s, []);
  }

  lemma {:induction false} ReadTaggedInverts(tag: Byte, d: Bytes)
    requires ReadTagged(tag, d).Some?
    ensures var (content, rest) := ReadTagged(tag, d).value;
            |content| < 0x80 && d == Tagged(tag, content) + rest
  {
    var (content, rest) := ReadTagged(tag, d).value;
    assert d == d[..2] + content + rest;
    assert d[..2] == [tag, |content| as Byte];
  }

  /** An INTEGER that reads as the value of b is the one the encoder writes. */
  lemma {:induction false} ReadIntegerInverts(d: Bytes, b: Bytes)
    requires 1 <= |b| <= 32 && ReadInteger(d).Some? && ReadInteger(d).value.0 == Value(b)
    ensures |Trimmed(b)| <= 33 && d == Tagged(INTEGER, Trimmed(b)) + ReadInteger(d).value.1
  {
    TrimmedLength(b);
    TrimmedIsMinimal(b);
    ReadTaggedInverts(INTEGER, d);
    var content := ReadTagged(INTEGER, d).value.0;
    ValueBounded(content);
    MinimalUnique(content, Trimmed(b));
  }

  lemma {:induction false} BodyInverts(body: Bytes, r: Bytes, s: Bytes)
    requires 1 <= |r| <= 32 && 1 <= |s| <= 32
    requires ReadInteger(body).Some? && ReadInteger(body).value.0 == Value(r)
    requires var rest := ReadInteger(body).value.1;
             ReadInteger(rest).Some? && ReadInteger(rest).value == (Value(s) as int, [])
    ensures |Trimmed(r)| <= 33 && |Trimmed(s)| <= 33
    ensures body == Tagged(INTEGER, Trimmed(r)) + Tagged(INTEGER, Trimmed(s))
  {
    var rest := ReadInteger(body).value.1;
    ReadIntegerInverts(body, r);
    ReadIntegerInverts(rest, s);
    assert rest == Tagged(INTEGER, Trimmed(s)) + [] == Tagged(INTEGER, Trimmed(s));
  }

  /** The encoding is the only DER of its two numbers. */
  lemma {:induction false} EncodingIsTheOnlyDer(d: Bytes, r: Bytes, s: Bytes)
    requires 1 <= |r| <= 32 && 1 <= |s| <= 32
    ensures Decode(d) == Some((Value(r) as int, Value(s) as int)) <==> d == Encode(r, s)
  {
    if Decode(d) == Some((Value(r) as int, Value(s) as int)) {
      var body := ReadTagged(SEQUENCE, d).value.0;
      ReadTaggedInverts(SEQUENCE, d);
      BodyInverts(body, r, s);
      assert d == Tagged(SEQUENCE, body) + [] == Tagged(SEQUENCE, body);
    } else {
      EncodeDecodes(r, s);
    }
  }

  /** Which signatures are normalized, and to what numbers: RS256 ones as they are, ES256 ones of 64 bytes as their two halves. */
  lemma {:induction false} NormalizedByAlgorithm(alg: Algorithm, raw: Bytes)
    ensures Normalized(alg, raw).None? <==> alg == ES256 && |raw| != 64
    ensures alg == RS256 ==> Normalized(alg, raw) == Some(raw)
    ensures alg == ES256 && |raw| == 64 ==>
              Decode(Normalized(alg, raw).value) == Some((Value(raw[..32]) as int, Value(raw[32..]) as int))
  {
    if alg == ES256 && |raw| == 64 { EncodeDecodes(raw[..32], raw[32..]); }
  }

  /** Every 64-byte ES256 signature is normalized, and two to the same DER only if they are the same. */
  lemma {:induction false} SignaturesStayDistinct(a: Bytes, b: Bytes)
    requires |a| == 64 && |b| == 64
    ensures Normalized(ES256, a).Some? && |Normalized(ES256, a).value| <= 72
    ensures Normalized(ES256, a) == Normalized(ES256, b) <==> a == b
  {
    EncodeDecodes(a[..32], a[32..]);
    EncodeDecodes(b[..32], b[32..]);
    if Normalized(ES256, a) == Normalized(ES256, b) {
      SameLengthSameValue(a[..32], b[..32]);
      SameLengthSameValue(a[32..], b[32..]);
      assert a == a[..32] + a[32..] && b == b[..32] + b[32..];
    }
  }
}
