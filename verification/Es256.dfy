/**
 ES256 signatures: the raw 64-byte form and the DER form (Ecdsa-Sig-Value, section 2.2.3 of RFC 3279), as the encoder
 and the verifier parse them. Hexadecimal text is taken as the bytes it stands for.
 */
module Es256 {
  import opened Base

  const P256_N := 0xFFFFFFFF00000000FFFFFFFFFFFFFFFFBCE6FAADA7179E84F3B9CAC2FC632551
  const P256_HALF_N := 0x7fffffff800000007fffffffffffffffde737d56d38bcf4279dce5617e3192a8

  const TWO_256 := 0x1_0000000000000000000000000000000000000000000000000000000000000000

  /** What 32 bytes hold, the same without zero, and what a signature is made of. */
  type Word = n: nat | n < TWO_256

  type Positive = n: nat | 0 < n < TWO_256 witness 1

  type Scalar = n: nat | 0 < n < P256_N witness 1

  /** `Bad` is a thrown exception. */
  datatype Parsed = Ok(r: Bytes, s: Bytes) | Bad

  // ----- Big-endian numbers -----

  function Num(b: Bytes): nat {
    if |b| == 0 then 0 else 256 * Num(b[..|b| - 1]) + b[|b| - 1]
  }

  /** The low `k` bytes of a number, also of a negative one. */
  function ToBytes(v: int, k: nat): (b: Bytes)
    ensures |b| == k
    decreases k
  {
    if k == 0 then [] else ToBytes(v / 256, k - 1) + [v % 256]
  }

  function Pow256(k: nat): (p: nat)
    ensures p >= 1
  {
    if k == 0 then 1 else 256 * Pow256(k - 1)
  }

  lemma {:induction false} NumBound(b: Bytes)
    ensures Num(b) < Pow256(|b|)
  {
    if |b| > 0 {
      NumBound(b[..|b| - 1]);
    }
  }

  lemma {:induction false} NumInjective(a: Bytes, b: Bytes)
    requires |a| == |b| && Num(a) == Num(b)
    ensures a == b
  {
    if |a| > 0 {
      NumInjective(a[..|a| - 1], b[..|b| - 1]);
      assert a == a[..|a| - 1] + [a[|a| - 1]] && b == b[..|b| - 1] + [b[|b| - 1]];
    }
  }

  /** Without leading zeros. */
  function Minimal(v: nat): (b: Bytes)
    ensures Num(b) == v && (|b| > 0 <==> v > 0) && (|b| > 0 ==> b[0] > 0)
  {
    if v == 0 then []
    else
      var b := Minimal(v / 256) + [v % 256];
      assert b[..|b| - 1] == Minimal(v / 256);
      b
  }

  lemma {:induction false} MinimalLength(v: nat, k: nat)
    requires v < Pow256(k)
    ensures |Minimal(v)| <= k
  {
    if v > 0 {
      MinimalLength(v / 256, k - 1);
    }
  }

  lemma {:induction false} PowAdds(a: nat, b: nat)
    ensures Pow256(a + b) == Pow256(a) * Pow256(b)
  {
    if b > 0 {
      PowAdds(a, b - 1);
      Regroup(Pow256(a), Pow256(b - 1));
    }
  }

  lemma Regroup(x: nat, y: nat)
    ensures 256 * (x * y) == x * (256 * y)
  {
  }

  lemma ThirtyTwoBytes()
    ensures Pow256(32) == TWO_256
  {
    assert Pow256(4) == 0x1_0000_0000;
    PowAdds(4, 4);
    PowAdds(8, 8);
    PowAdds(16, 16);
  }

  function Zeros(n: nat): (z: Bytes)
    ensures |z| == n
  {
    seq(n, _ => 0)
  }

  lemma {:induction false} LeadingZeros(n: nat, b: Bytes)
    ensures Num(Zeros(n) + b) == Num(b)
  {
    if |b| > 0 {
      LeadingZeros(n, b[..|b| - 1]);
      assert (Zeros(n) + b)[..n + |b| - 1] == Zeros(n) + b[..|b| - 1];
    } else if n > 0 {
      LeadingZeros(n - 1, b);
      assert (Zeros(n) + b)[..n - 1] == Zeros(n - 1) + b;
    } else {
      assert Zeros(n) + b == b;
    }
  }

  lemma FitsIn32(v: Word)
    ensures |Minimal(v)| <= 32
  {
    ThirtyTwoBytes();
    MinimalLength(v, 32);
  }

  /** A number as 32 bytes. */
  function Bytes32(v: Word): (b: Bytes)
    ensures |b| == 32 && Num(b) == v
  {
    FitsIn32(v);
    var m := Minimal(v);
    LeadingZeros(32 - |m|, m);
    Zeros(32 - |m|) + m
  }

  lemma NumMod(n: int, p: nat)
    requires p > 0
    ensures 256 * (n / 256 % p) + n % 256 == n % (256 * p)
  {
    var (q, m) := (n / 256 / p, n / 256 % p);
    assert n == 256 * (q * p + m) + n % 256;
    Regroup'(q, p);
    RemainderIsUnique(n, q, 256 * m + n % 256, 256 * p);
  }

  lemma Regroup'(q: int, p: int)
    ensures 256 * (q * p) == q * (256 * p)
  {
  }

  lemma RemainderIsUnique(n: int, q: int, r: int, d: nat)
    requires n == q * d + r && 0 <= r < d
    ensures n % d == r
  {
    var (q', r') := (n / d, n % d);
    assert n == q' * d + r';
    Multiples(q - q', d);
    assert (q - q') * d == r' - r;
  }

  lemma Multiples(x: int, d: nat)
    ensures x >= 1 ==> x * d >= d
    ensures x <= -1 ==> x * d + d <= 0
  {
  }

  lemma {:induction false} NumOfBytes(v: int, k: nat)
    ensures Num(ToBytes(v, k)) == v % Pow256(k)
    decreases k
  {
    if k > 0 {
      NumOfBytes(v / 256, k - 1);
      assert ToBytes(v, k)[..k - 1] == ToBytes(v / 256, k - 1);
      NumMod(v, Pow256(k - 1));
    }
  }

  lemma LowBytes(value: int, b: Bytes)
    requires |b| == 32 && b == ToBytes(value, |b|)
    ensures b == Bytes32(value % TWO_256)
  {
    NumOfBytes(value, |b|);
    ThirtyTwoBytes();
    assert Pow256(|b|) == TWO_256;
    NumInjective(b, Bytes32(value % TWO_256));
  }

  /** Byte by byte from the right, which wraps round for a negative or an over-long value. */
  method BigIntToBytes32(value: int) returns (bytes: Bytes)
    ensures bytes == Bytes32(value % TWO_256)
  {
    var out := new byte[32](_ => 0);
    var n, i := value, 31;
    while i >= 0
      invariant -1 <= i <= 31
      invariant ToBytes(value, out.Length) == ToBytes(n, i + 1) + out[i + 1..]
    {
      ghost var before := out[i + 1..];
      out[i] := n % 256;
      n := n / 256;
      assert out[i..] == [out[i]] + before;
      i := i - 1;
    }
    assert out[0..] == out[..];
    bytes := out[..];
    LowBytes(value, bytes);
  }

  // ----- The parsers -----

  function At(b: Bytes, i: nat): Option<byte> {
    if i < |b| then Some(b[i]) else None
  }

  /** `slice(from, from + len)`, clamped; an undefined length gives nothing. */
  function Slice(b: Bytes, from: nat, len: Option<byte>): Bytes {
    if len.None? || from >= |b| then []
    else if from + len.value <= |b| then b[from..from + len.value] else b[from..]
  }

  /** None is the exception of writing before the start of the 32 bytes. */
  function Pad32(b: Bytes): (r: Option<Bytes>)
    ensures r.Some? ==> |r.value| == 32
  {
    if |b| == 32 then Some(b)
    else if |b| == 33 && b[0] == 0 then Some(b[1..])
    else if |b| > 32 then None
    else Some(Zeros(32 - |b|) + b)
  }

  method Pad32InPlace(b: Bytes) returns (r: Option<Bytes>)
    ensures r == Pad32(b)
  {
    if |b| == 32 { return Some(b); }
    if |b| == 33 && b[0] == 0 { return Some(b[1..]); }
    if |b| > 32 { return None; }
    var out := new byte[32](_ => 0);
    var at := 32 - |b|;
    for i := 0 to |b|
      invariant forall j :: 0 <= j < 32 ==> out[j] == if at <= j < at + i then b[j - at] else 0
    {
      out[at + i] := b[i];
    }
    assert out[..] == Zeros(at) + b;
    return Some(out[..]);
  }

  /** What both parsers make of bytes that are not 64 long. */
  function ParseDer(b: Bytes): Parsed {
    if At(b, 0) != Some(0x30) || At(b, 2) != Some(2) || At(b, 3).None? then Bad
    else
      var rLen: nat := b[3];
      if At(b, 4 + rLen) != Some(2) then Bad
      else
        var r, s := Pad32(Slice(b, 4, Some(b[3]))), Pad32(Slice(b, 6 + rLen, At(b, 5 + rLen)));
        if r.None? || s.None? then Bad else Ok(r.value, s.value)
  }

  /** The verifier's parser: the values as they are. */
  function Parse(b: Bytes): Parsed {
    if |b| == 64 then Ok(b[..32], b[32..]) else ParseDer(b)
  }

  method ParseEs256(b: Bytes) returns (p: Parsed)
    ensures p == Parse(b)
  {
    if |b| == 64 { return Ok(b[..32], b[32..]); }
    var offset: nat := 0;
    if At(b, offset) != Some(0x30) { return Bad; }
    offset := offset + 2;
    if At(b, offset) != Some(2) { return Bad; }
    offset := offset + 1;
    var rLen := At(b, offset);
    offset := offset + 1;
    var rBytes := Slice(b, offset, rLen);
    if rLen.None? { return Bad; }
    offset := offset + rLen.value;
    if At(b, offset) != Some(2) { return Bad; }
    offset := offset + 1;
    var sLen := At(b, offset);
    offset := offset + 1;
    var sBytes := Slice(b, offset, sLen);
    var r := Pad32InPlace(rBytes);
    if r.None? { return Bad; }
    var s := Pad32InPlace(sBytes);
    if s.None? { return Bad; }
    return Ok(r.value, s.value);
  }

  function LowS(s: Bytes): Bytes {
    if Num(s) <= P256_HALF_N then s else Bytes32((P256_N - Num(s)) % TWO_256)
  }

  /** The encoder's parser: the same, with `s` brought into the lower half. */
  function ParseLowS(b: Bytes): Parsed {
    var p := Parse(b);
    if p.Ok? then Ok(p.r, LowS(p.s)) else Bad
  }

  method ParseEs256Signature(b: Bytes) returns (p: Parsed)
    ensures p == ParseLowS(b)
  {
    p := ParseEs256(b);
    if p.Ok? && Num(p.s) > P256_HALF_N {
      var low := BigIntToBytes32(P256_N - Num(p.s));
      p := Ok(p.r, low);
    }
  }

  // ----- The two forms -----

  function Raw(r: Word, s: Word): (b: Bytes)
    ensures |b| == 64
  {
    Bytes32(r) + Bytes32(s)
  }

  /** The contents of a DER INTEGER: a leading zero keeps a set top bit from reading as a sign. */
  function DerInt(v: Positive): Bytes {
    var m := Minimal(v);
    if m[0] >= 128 then [0] + m else m
  }

  function Sequence(ri: Bytes, si: Bytes): Bytes
    requires |ri| <= 33 && |si| <= 33
  {
    [0x30, |ri| + |si| + 4, 2, |ri|] + ri + [2, |si|] + si
  }

  function Der(r: Positive, s: Positive): Bytes {
    PaddedInt(r);
    PaddedInt(s);
    Sequence(DerInt(r), DerInt(s))
  }

  lemma PadKeepsValue(b: Bytes, v: nat)
    requires |b| <= 32 && Num(b) == v < TWO_256
    ensures Pad32(b) == Some(Bytes32(v))
  {
    if |b| == 32 {
      OnlyBytes32(b, v);
    } else {
      var padded := Zeros(32 - |b|) + b;
      LeadingZeros(32 - |b|, b);
      OnlyBytes32(padded, v);
    }
  }

  lemma OnlyBytes32(b: Bytes, v: nat)
    requires |b| == 32 && Num(b) == v < TWO_256
    ensures b == Bytes32(v)
  {
    NumInjective(b, Bytes32(v));
  }

  /** Padding a DER integer gives the 32 bytes of its value. */
  lemma PaddedInt(v: Positive)
    ensures |DerInt(v)| <= 33 && Pad32(DerInt(v)) == Some(Bytes32(v))
  {
    FitsIn32(v);
    var m := Minimal(v);
    if m[0] < 128 || |m| == 32 {
      PadKeepsValue(m, v);
      assert ([0] + m)[1..] == m;
    } else {
      LeadingZeros(1, m);
      assert Zeros(1) + m == [0] + m;
      PadKeepsValue([0] + m, v);
    }
  }

  lemma RawParses(r: Word, s: Word)
    ensures Parse(Raw(r, s)) == Ok(Bytes32(r), Bytes32(s))
  {
  }

  lemma Layout(h: Bytes, x: Bytes, m: Bytes, y: Bytes)
    requires |h| == 4 && |m| == 2
    ensures var b := h + x + m + y;
            && b[..4] == h && b[4..4 + |x|] == x && b[4 + |x|] == m[0] && b[5 + |x|] == m[1] && b[6 + |x|..] == y
  {
  }

  lemma DerFields(r: Positive, s: Positive, d: Bytes)
    requires d == Der(r, s)
    ensures ParseDer(d) == Ok(Bytes32(r), Bytes32(s))
  {
    PaddedInt(r);
    PaddedInt(s);
    FieldsParse(DerInt(r), DerInt(s), Bytes32(r), Bytes32(s));
  }

  lemma FieldsParse(ri: Bytes, si: Bytes, r: Bytes, s: Bytes)
    requires |ri| <= 33 && |si| <= 33 && Pad32(ri) == Some(r) && Pad32(si) == Some(s)
    ensures ParseDer(Sequence(ri, si)) == Ok(r, s)
  {
    var head := [0x30, |ri| + |si| + 4, 2, |ri|];
    Layout(head, ri, [2, |si|], si);
    var b := head + ri + [2, |si|] + si;
    assert forall i :: 0 <= i < 4 ==> b[i] == b[..4][i];
    assert Slice(b, 4, Some(b[3])) == ri;
    assert Slice(b, 6 + |ri|, Some(b[5 + |ri|])) == si;
  }

  // ----- Exactly what the DER branch accepts -----

  /** A header with any length byte, a first integer in full, and something that follows the second tag. */
  predicate Shaped(b: Bytes, h: byte, ri: Bytes, rest: Bytes) {
    |ri| < 256 && b == [0x30, h, 2, |ri|] + ri + [2] + rest
  }

  /** The second integer: as long as its length byte says, or what there is of it. */
  function Second(rest: Bytes): Bytes {
    if |rest| == 0 then [] else rest[1..1 + Min(rest[0], |rest| - 1)]
  }

  /** At most 32 bytes, or one more that is zero. */
  predicate Fits(b: Bytes) {
    |b| <= 32 || (|b| == 33 && b[0] == 0)
  }

  lemma PaddedIff(b: Bytes)
    ensures Pad32(b).Some? <==> Fits(b)
    ensures Fits(b) ==> Num(Pad32(b).value) == Num(b)
  {
    if |b| < 32 {
      LeadingZeros(32 - |b|, b);
    } else if |b| == 33 && b[0] == 0 {
      LeadingZeros(1, b[1..]);
      assert Zeros(1) + b[1..] == b;
    }
  }

  lemma SecondIs(b: Bytes, n: nat, rest: Bytes)
    requires |b| == 5 + n + |rest| && b[5 + n..] == rest
    ensures Slice(b, 6 + n, At(b, 5 + n)) == Second(rest)
  {
    if |rest| > 0 {
      assert b[5 + n] == rest[0] && b[6 + n..] == rest[1..];
      var len := Min(rest[0], |rest| - 1);
      assert b[6 + n..6 + n + len] == b[6 + n..][..len] == rest[1..][..len] == rest[1..1 + len];
    }
  }

  lemma ShapedParses(b: Bytes, h: byte, ri: Bytes, rest: Bytes)
    requires Shaped(b, h, ri, rest)
    ensures ParseDer(b) == if Fits(ri) && Fits(Second(rest)) then Ok(Pad32(ri).value, Pad32(Second(rest)).value)
                           else Bad
  {
    var n := |ri|;
    assert b[0] == 0x30 && b[2] == 2 && b[3] == n && b[4 + n] == 2;
    assert Slice(b, 4, Some(n)) == b[4..4 + n] == ri;
    assert b[5 + n..] == rest;
    SecondIs(b, n, rest);
    PaddedIff(ri);
    PaddedIff(Second(rest));
  }

  /** The bytes have that shape, and their integers fit and have these values. */
  predicate Carries(b: Bytes, h: byte, ri: Bytes, rest: Bytes, r: Bytes, s: Bytes) {
    && Shaped(b, h, ri, rest) && Fits(ri) && Fits(Second(rest))
    && |r| == 32 && |s| == 32 && (Num(ri), Num(Second(rest))) == (Num(r), Num(s))
  }

  lemma CarriedIsParsed(b: Bytes, h: byte, ri: Bytes, rest: Bytes, r: Bytes, s: Bytes)
    requires Carries(b, h, ri, rest, r, s)
    ensures ParseDer(b) == Ok(r, s)
  {
    ShapedParses(b, h, ri, rest);
    PaddedIff(ri);
    PaddedIff(Second(rest));
    NumInjective(Pad32(ri).value, r);
    NumInjective(Pad32(Second(rest)).value, s);
  }

  lemma ParsedIsCarried(b: Bytes, r: Bytes, s: Bytes) returns (h: byte, ri: Bytes, rest: Bytes)
    requires ParseDer(b) == Ok(r, s)
    ensures Carries(b, h, ri, rest, r, s)
  {
    var n: nat := b[3];
    ShapeOf(b, n);
    h, ri, rest := b[1], b[4..4 + n], b[5 + n..];
    ShapedParses(b, h, ri, rest);
    PaddedIff(ri);
    PaddedIff(Second(rest));
    assert Pad32(ri) == Some(r) && Pad32(Second(rest)) == Some(s);
  }

  /**
   The DER branch gives two values exactly to the bytes of that shape whose integers fit and have them; the header's
   length, what follows the second integer and bytes missing from its end do not matter.
   */
  lemma DerAcceptsIff(b: Bytes, r: Bytes, s: Bytes)
    ensures ParseDer(b) == Ok(r, s) <==> exists h, ri, rest :: Carries(b, h, ri, rest, r, s)
  {
    if ParseDer(b) == Ok(r, s) {
      var h, ri, rest := ParsedIsCarried(b, r, s);
      assert Carries(b, h, ri, rest, r, s);
    }
    forall h, ri, rest | Carries(b, h, ri, rest, r, s) ensures ParseDer(b) == Ok(r, s) {
      CarriedIsParsed(b, h, ri, rest, r, s);
    }
  }

  lemma ShapeOf(b: Bytes, n: nat)
    requires |b| > 4 + n && b[0] == 0x30 && b[2] == 2 && b[3] == n && b[4 + n] == 2
    ensures Shaped(b, b[1], b[4..4 + n], b[5 + n..])
  {
    var ri := b[4..4 + n];
    assert b == [0x30, b[1], 2, |ri|] + ri + [2] + b[5 + n..];
  }

  /** A number whose 32 bytes do not start with zero has all of them in its DER integer. */
  lemma FullWidth(v: Positive)
    ensures Bytes32(v)[0] != 0 ==> |DerInt(v)| >= 32 && (Bytes32(v)[0] < 128 ==> DerInt(v) == Bytes32(v))
  {
    FitsIn32(v);
  }

  /** If the first half of the 64 bytes is the first integer, it repeats its own first four bytes throughout. */
  lemma Repeats(ri: Bytes, si: Bytes, b: Bytes)
    requires |ri| == 32 && |si| == 26 && b == Sequence(ri, si) && b[..32] == ri
    ensures b[32] == 0x30
  {
    assert b[0] == 0x30;
    forall i | 0 <= i < 32 ensures b[i + 4] == b[i] {
      assert b[i + 4] == ri[i] == b[..32][i];
    }
    assert b[32] == b[28] == b[24] == b[20] == b[16] == b[12] == b[8] == b[4] == b[0];
  }

  /** No DER form of 64 bytes is read right: its `r` would be 32 bytes long, and by the repetition its `s` as well. */
  lemma SixtyFourIsMisread(r: Scalar, s: Scalar)
    requires |Der(r, s)| == 64
    ensures Parse(Der(r, s)) != Ok(Bytes32(r), Bytes32(s))
  {
    var b, x, y := Der(r, s), Bytes32(r), Bytes32(s);
    if b[..32] == x && b[32..] == y {
      FullWidth(r);
      FullWidth(s);
      Halves(DerInt(r), DerInt(s), b, x, y);
    }
  }

  lemma Halves(ri: Bytes, si: Bytes, b: Bytes, x: Bytes, y: Bytes)
    requires |ri| <= 33 && |si| <= 33 && b == Sequence(ri, si) && |b| == 64 && b[..32] == x && b[32..] == y
    ensures x[0] == 0x30 && (ri == x ==> y[0] == 0x30)
  {
    assert x[0] == b[0];
    if ri == x {
      Repeats(ri, si, b);
      assert y[0] == b[32];
    }
  }

  /**
   The verifier reads both forms of every signature to the same 32-byte values, except that a DER form of exactly 64
   bytes is taken for a raw one; and that is never right.
   */
  lemma BothFormsParseIff(r: Scalar, s: Scalar)
    ensures Parse(Raw(r, s)) == Ok(Bytes32(r), Bytes32(s))
    ensures Parse(Der(r, s)) == Parse(Raw(r, s)) <==> |Der(r, s)| != 64
  {
    RawParses(r, s);
    if |Der(r, s)| == 64 {
      SixtyFourIsMisread(r, s);
    } else {
      DerFields(r, s, Der(r, s));
    }
  }

  /** Such forms exist: `r` of 29 bytes and `s` of 29 bytes, say. */
  lemma SixtyFourExists()
    ensures 0 < Pow256(28) < P256_N && |Der(Pow256(28), Pow256(28))| == 64
  {
    assert Pow256(4) == 0x1_0000_0000;
    PowAdds(4, 4);
    PowAdds(8, 8);
    PowAdds(16, 8);
    PowAdds(24, 4);
    MinimalPower(28);
  }

  lemma {:induction false} MinimalPower(k: nat)
    ensures |Minimal(Pow256(k))| == k + 1 && Minimal(Pow256(k))[0] == 1
  {
    if k > 0 {
      MinimalPower(k - 1);
    }
  }

  // ----- Low s -----

  function LowerTwin(s: Scalar): Scalar {
    if s <= P256_N - s then s else P256_N - s
  }

  /** The lower of the two equivalent values is the one up to half the order, which is never zero. */
  lemma LowSIsMin(s: Scalar)
    ensures LowS(Bytes32(s)) == Bytes32(LowerTwin(s))
    ensures 0 < LowerTwin(s) <= P256_HALF_N == (P256_N - 1) / 2
  {
    assert Num(Bytes32(s)) == s;
    if s > P256_HALF_N {
      assert (P256_N - s) % TWO_256 == P256_N - s == LowerTwin(s);
    } else {
      assert LowerTwin(s) == s;
    }
  }

  lemma TwinsAlike(s: Scalar)
    ensures LowS(Bytes32(P256_N - s)) == LowS(Bytes32(s))
    ensures LowS(LowS(Bytes32(s))) == LowS(Bytes32(s))
  {
    LowSIsMin(s);
    LowSIsMin(P256_N - s);
    LowSIsMin(LowerTwin(s));
  }

  /** A number of at most 26 DER bytes starts its 32 bytes with zero, and is its own lower twin. */
  lemma ShortIsLow(s: Scalar)
    requires |DerInt(s)| <= 26
    ensures Bytes32(s)[0] == 0 && LowerTwin(s) == s
  {
    FullWidth(s);
    NumBound(Minimal(s));
    PowGrows(|Minimal(s)|, 26);
    TwentySixBytes();
  }

  lemma TwentySixBytes()
    ensures Pow256(26) <= P256_HALF_N
  {
    assert Pow256(4) == 0x1_0000_0000;
    PowAdds(4, 4);
    PowAdds(8, 8);
    PowAdds(16, 8);
    PowAdds(24, 2);
    assert Pow256(2) == 65536;
  }

  lemma {:induction false} PowGrows(a: nat, b: nat)
    requires a <= b
    ensures Pow256(a) <= Pow256(b)
    decreases b
  {
    if a < b {
      PowGrows(a, b - 1);
    }
  }

  /** 32 bytes that start with 0x30 are in the lower half already. */
  lemma LowAlready(y: Bytes)
    requires |y| == 32 && y[0] == 0x30
    ensures LowS(y) == y
  {
    NumSplits(y);
    NumBound(y[1..]);
    assert Pow256(4) == 0x1_0000_0000;
    PowAdds(4, 4);
    PowAdds(8, 8);
    PowAdds(16, 8);
    PowAdds(24, 7);
    PowAdds(4, 3);
    assert Pow256(3) == 0x100_0000;
  }

  lemma {:induction false} NumSplits(b: Bytes)
    requires |b| > 0
    ensures Num(b) == b[0] * Pow256(|b| - 1) + Num(b[1..])
  {
    if |b| > 1 {
      NumSplits(b[..|b| - 1]);
      assert b[..|b| - 1][1..] == b[1..][..|b| - 2];
      Regroup(b[0], Pow256(|b| - 2));
    } else {
      assert b[..0] == [] && b[1..] == [];
    }
  }

  /** If the first half is read right, the second integer is short, and the second half starts like the whole. */
  lemma SecondHalf(r: Scalar, s: Scalar, b: Bytes)
    requires b == Der(r, s) && |b| == 64 && b[..32] == Bytes32(r)
    ensures b[32] == 0x30 && |DerInt(s)| <= 26
  {
    FullWidth(r);
    PaddedInt(r);
    PaddedInt(s);
    Halves(DerInt(r), DerInt(s), b, b[..32], b[32..]);
  }

  /** Lowering the misread second half does not repair it. */
  lemma SixtyFourStaysMisread(r: Scalar, s: Scalar)
    requires |Der(r, s)| == 64
    ensures ParseLowS(Der(r, s)) != Ok(Bytes32(r), Bytes32(LowerTwin(s)))
  {
    var b := Der(r, s);
    if b[..32] == Bytes32(r) {
      SecondHalf(r, s, b);
      LowAlready(b[32..]);
      ShortIsLow(s);
    }
  }

  /**
   The encoder gives `r` and the lower of `s` and `n - s` from the raw form of every signature, so both twins encode
   alike, and from the DER form exactly if that is not 64 bytes long.
   */
  lemma EncoderParses(r: Scalar, s: Scalar)
    ensures ParseLowS(Raw(r, s)) == Ok(Bytes32(r), Bytes32(LowerTwin(s)))
    ensures ParseLowS(Raw(r, s)) == ParseLowS(Raw(r, P256_N - s))
    ensures ParseLowS(Der(r, s)) == Ok(Bytes32(r), Bytes32(LowerTwin(s))) <==> |Der(r, s)| != 64
  {
    RawParses(r, s);
    RawParses(r, P256_N - s);
    LowSIsMin(s);
    TwinsAlike(s);
    if |Der(r, s)| == 64 {
      SixtyFourStaysMisread(r, s);
    } else {
      DerFields(r, s, Der(r, s));
    }
  }
}
