/** Bytes of an image: little-endian fields, in-place writes, bits and zero runs. */
module Bytes {

  type byte = x: int | 0 <= x < 256

  /** `k * unit` as repeated addition, so that products of two variables stay out of the
      byte-level proofs; `TimesIsProduct` relates it to multiplication. */
  function Times(k: nat, unit: nat): nat {
    if k == 0 then 0 else Times(k - 1, unit) + unit
  }

  lemma {:induction false} TimesIsProduct(k: nat, unit: nat)
    ensures Times(k, unit) == k * unit
  {
    if k > 0 { TimesIsProduct(k - 1, unit); }
  }

  lemma {:induction false} TimesMonotone(j: nat, k: nat, unit: nat)
    requires j < k
    ensures Times(j, unit) + unit <= Times(k, unit)
  {
    if j < k - 1 { TimesMonotone(j, k - 1, unit); }
  }

  /** `k / unit` and `k % unit` by repeated subtraction; `QuotRemIsDivMod` relates them. */
  function Quot(k: nat, unit: nat): nat
    requires unit > 0
  {
    if k < unit then 0 else 1 + Quot(k - unit, unit)
  }

  function Rem(k: nat, unit: nat): nat
    requires unit > 0
  {
    if k < unit then k else Rem(k - unit, unit)
  }

  /** `k.div_ceil(unit)`. */
  function CeilQuot(k: nat, unit: nat): nat
    requires unit > 0
  {
    Quot(k + (unit - 1), unit)
  }

  lemma {:induction false} QuotRem(k: nat, unit: nat)
    requires unit > 0
    ensures Times(Quot(k, unit), unit) + Rem(k, unit) == k
    ensures Rem(k, unit) < unit
  {
    if k >= unit { QuotRem(k - unit, unit); }
  }

  lemma {:induction false} QuotRemIsDivMod(k: nat, unit: nat)
    requires unit > 0
    ensures Quot(k, unit) == k / unit && Rem(k, unit) == k % unit
  {
    if k >= unit {
      QuotRemIsDivMod(k - unit, unit);
      DivStep(k - unit, unit);
    }
  }

  lemma DivStep(k: nat, unit: nat)
    requires unit > 0
    ensures (k + unit) / unit == k / unit + 1 && (k + unit) % unit == k % unit
  {
    var q, r := k / unit, k % unit;
    assert k == q * unit + r;
    assert k + unit == (q + 1) * unit + r;
    SameQuotient((k + unit) / unit, (k + unit) % unit, q + 1, r, unit);
  }

  lemma SameQuotient(q: nat, r: nat, p: nat, s: nat, unit: nat)
    requires r < unit && s < unit && q * unit + r == p * unit + s
    ensures q == p && r == s
  {
    TimesIsProduct(q, unit);
    TimesIsProduct(p, unit);
    if q > p { TimesMonotone(p, q, unit); }
    if q < p { TimesMonotone(q, p, unit); }
  }

  /** Quotient and remainder are unique. */
  lemma {:induction false} QuotOf(q: nat, r: nat, unit: nat)
    requires r < unit
    ensures Quot(Times(q, unit) + r, unit) == q && Rem(Times(q, unit) + r, unit) == r
  {
    if q > 0 {
      QuotOf(q - 1, r, unit);
      assert Times(q, unit) + r - unit == Times(q - 1, unit) + r;
    }
  }

  /** The two little-endian fields the image is made of. */
  function U16(s: seq<byte>, at: nat): (v: nat)
    requires at + 2 <= |s|
    ensures v < 0x1_0000
  {
    s[at] as int + 256 * s[at + 1] as int
  }

  function U32(s: seq<byte>, at: nat): (v: nat)
    requires at + 4 <= |s|
    ensures v < 0x1_0000_0000
  {
    s[at] as int + 256 * s[at + 1] as int + 65536 * s[at + 2] as int + 16777216 * s[at + 3] as int
  }

  function Le16(v: nat): (r: seq<byte>)
    requires v < 0x1_0000
    ensures |r| == 2
  {
    [v % 256, v / 256]
  }

  function Le32(v: nat): (r: seq<byte>)
    requires v < 0x1_0000_0000
    ensures |r| == 4
  {
    [v % 256, v / 256 % 256, v / 65536 % 256, v / 16777216]
  }

  function Zeros(n: nat): (r: seq<byte>)
    ensures |r| == n && forall i :: 0 <= i < n ==> r[i] == 0
  {
    seq(n, _ => 0)
  }

  /** Overwrite `bs` at `at`. */
  function Put(s: seq<byte>, at: nat, bs: seq<byte>): (r: seq<byte>)
    requires at + |bs| <= |s|
    ensures |r| == |s|
    ensures forall i :: 0 <= i < |s| ==> r[i] == if at <= i < at + |bs| then bs[i - at] else s[i]
  {
    s[..at] + bs + s[at + |bs|..]
  }

  /** [a, a+m) and [b, b+n) have no byte in common. */
  predicate Apart(a: nat, m: nat, b: nat, n: nat) {
    a + m <= b || b + n <= a
  }

  lemma Put16Read(s: seq<byte>, at: nat, v: nat)
    requires at + 2 <= |s| && v < 0x1_0000
    ensures U16(Put(s, at, Le16(v)), at) == v
  {
  }

  lemma Put32Read(s: seq<byte>, at: nat, v: nat)
    requires at + 4 <= |s| && v < 0x1_0000_0000
    ensures U32(Put(s, at, Le32(v)), at) == v
  {
    var r := Put(s, at, Le32(v));
    assert r[at] == v % 256 && r[at + 1] == v / 256 % 256;
    assert r[at + 2] == v / 65536 % 256 && r[at + 3] == v / 16777216;
  }

  lemma Le16Of(s: seq<byte>, at: nat)
    requires at + 2 <= |s|
    ensures Le16(U16(s, at)) == s[at..at + 2]
  {
  }

  lemma Le32Of(s: seq<byte>, at: nat)
    requires at + 4 <= |s|
    ensures Le32(U32(s, at)) == s[at..at + 4]
  {
    var b0: int, b1: int, b2: int, b3: int := s[at], s[at + 1], s[at + 2], s[at + 3];
    var v := U32(s, at);
    assert v == b0 + 256 * (b1 + 256 * (b2 + 256 * b3));
    assert v / 256 == b1 + 256 * (b2 + 256 * b3);
    assert v / 65536 == b2 + 256 * b3;
    assert v / 16777216 == b3;
  }

  /** Writing elsewhere leaves a field alone. */
  lemma Read16Apart(s: seq<byte>, at: nat, bs: seq<byte>, f: nat)
    requires at + |bs| <= |s| && f + 2 <= |s| && Apart(at, |bs|, f, 2)
    ensures U16(Put(s, at, bs), f) == U16(s, f)
  {
  }

  lemma Read32Apart(s: seq<byte>, at: nat, bs: seq<byte>, f: nat)
    requires at + |bs| <= |s| && f + 4 <= |s| && Apart(at, |bs|, f, 4)
    ensures U32(Put(s, at, bs), f) == U32(s, f)
  {
  }

  lemma PutCommute(s: seq<byte>, a: nat, x: seq<byte>, b: nat, y: seq<byte>)
    requires a + |x| <= |s| && b + |y| <= |s| && Apart(a, |x|, b, |y|)
    ensures Put(Put(s, a, x), b, y) == Put(Put(s, b, y), a, x)
  {
  }

  /** A later write that covers an earlier one makes it invisible. */
  lemma PutCovers(s: seq<byte>, a: nat, x: seq<byte>, b: nat, y: seq<byte>)
    requires b <= a && a + |x| <= b + |y| <= |s|
    ensures Put(Put(s, a, x), b, y) == Put(s, b, y)
  {
  }

  /** Writing what is already there changes nothing. */
  lemma PutSame(s: seq<byte>, at: nat, bs: seq<byte>)
    requires at + |bs| <= |s| && s[at..at + |bs|] == bs
    ensures Put(s, at, bs) == s
  {
    forall i | 0 <= i < |s| ensures Put(s, at, bs)[i] == s[i] {
      if at <= i < at + |bs| { assert bs[i - at] == s[at..at + |bs|][i - at]; }
    }
  }

  // ----- bits -----

  function Pow2(k: nat): (p: nat)
    ensures p > 0
  {
    if k == 0 then 1 else 2 * Pow2(k - 1)
  }

  /** `b & (1 << k) != 0`. */
  predicate Bit(b: nat, k: nat) {
    if k == 0 then b % 2 == 1 else Bit(b / 2, k - 1)
  }

  /** A set bit is worth its weight; a clear one leaves room for it below `2^n`. */
  lemma {:induction false} BitRange(b: nat, k: nat, n: nat)
    requires k < n && b < Pow2(n)
    ensures Bit(b, k) ==> b >= Pow2(k)
    ensures !Bit(b, k) ==> b + Pow2(k) < Pow2(n)
  {
    if k > 0 { BitRange(b / 2, k - 1, n - 1); }
  }

  lemma ByteBound()
    ensures Pow2(8) == 256
  {
    assert Pow2(4) == 16;
    assert Pow2(6) == 64;
  }

  /** `b | (1 << k)`. */
  function SetBit(b: byte, k: nat): (r: byte)
    requires k < 8
  {
    BitRange(b, k, 8); ByteBound();
    if Bit(b, k) then b else b + Pow2(k)
  }

  /** `b & !(1 << k)`. */
  function ClearBit(b: byte, k: nat): (r: byte)
    requires k < 8
  {
    BitRange(b, k, 8); ByteBound();
    if Bit(b, k) then b - Pow2(k) else b
  }

  lemma {:induction false} AddBit(b: nat, k: nat, j: nat)
    requires !Bit(b, k)
    ensures Bit(b + Pow2(k), j) == (j == k || Bit(b, j))
  {
    if k == 0 {
      assert (b + 1) / 2 == b / 2;
    } else {
      assert (b + Pow2(k)) / 2 == b / 2 + Pow2(k - 1);
      if j > 0 { AddBit(b / 2, k - 1, j - 1); }
    }
  }

  lemma {:induction false} SubBit(b: nat, k: nat, j: nat)
    requires Bit(b, k)
    ensures b >= Pow2(k)
    ensures Bit(b - Pow2(k), j) == (j != k && Bit(b, j))
  {
    if k == 0 {
      assert (b - 1) / 2 == b / 2;
    } else {
      SubBit(b / 2, k - 1, if j > 0 then j - 1 else 0);
      assert (b - Pow2(k)) / 2 == b / 2 - Pow2(k - 1);
    }
  }

  lemma BitOfSet(b: byte, k: nat, j: nat)
    requires k < 8
    ensures Bit(SetBit(b, k), j) == (j == k || Bit(b, j))
  {
    if !Bit(b, k) { AddBit(b, k, j); }
  }

  lemma BitOfClear(b: byte, k: nat, j: nat)
    requires k < 8
    ensures Bit(ClearBit(b, k), j) == (j != k && Bit(b, j))
  {
    if Bit(b, k) { SubBit(b, k, j); }
  }

  lemma ClearAfterSet(b: byte, k: nat)
    requires k < 8 && !Bit(b, k)
    ensures ClearBit(SetBit(b, k), k) == b
  {
    BitOfSet(b, k, k);
  }
}
