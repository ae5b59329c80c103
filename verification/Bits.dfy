/** Words and memory as little-endian bit sequences: bit 8*k + j of a buffer is bit j of its
    byte k, and bit i of a word has weight 2^i. */
module Bits {

  type Word = seq<bool>

  function Pow2(n: nat): (p: nat)
    ensures p > 0
  {
    if n == 0 then 1 else 2 * Pow2(n - 1)
  }

  function Val(b: Word): nat {
    if b == [] then 0 else (if b[0] then 1 else 0) + 2 * Val(b[1..])
  }

  function ToBits(v: nat, w: nat): (b: Word)
    ensures |b| == w
  {
    if w == 0 then [] else [v % 2 == 1] + ToBits(v / 2, w - 1)
  }

  // ---- The C operators, bit by bit ----

  function And(a: Word, b: Word): (r: Word)
    requires |a| == |b|
    ensures |r| == |a|
  {
    seq(|a|, i requires 0 <= i < |a| => a[i] && b[i])
  }

  function Or(a: Word, b: Word): (r: Word)
    requires |a| == |b|
    ensures |r| == |a|
  {
    seq(|a|, i requires 0 <= i < |a| => a[i] || b[i])
  }

  function Not(a: Word): (r: Word)
    ensures |r| == |a|
  {
    seq(|a|, i requires 0 <= i < |a| => !a[i])
  }

  /** The n low bits set: (1ull << n) - 1, cut to the width of the operand. */
  function Mask(width: nat, n: nat): (r: Word)
    ensures |r| == width
  {
    seq(width, i => i < n)
  }

  function Shl(a: Word, k: nat): (r: Word)
    ensures |r| == |a|
  {
    seq(|a|, i requires 0 <= i < |a| => i >= k && a[i - k])
  }

  function Shr(a: Word, k: nat): (r: Word)
    ensures |r| == |a|
  {
    seq(|a|, i requires 0 <= i < |a| => i + k < |a| && a[i + k])
  }

  /** Conversion to another width: truncation, or extension by zeros or by the sign. */
  function Convert(a: Word, width: nat, signed: bool): (r: Word)
    ensures |r| == width
  {
    seq(width, i requires 0 <= i < width => if i < |a| then a[i] else signed && a != [] && a[|a| - 1])
  }

  function Resize(a: Word, width: nat): (r: Word)
    ensures |r| == width
  {
    Convert(a, width, false)
  }

  // ---- Numbers and bits ----

  lemma {:induction false} ValBound(b: Word)
    ensures Val(b) < Pow2(|b|)
  {
    if b != [] {
      ValBound(b[1..]);
    }
  }

  lemma Doubled(p: nat, v: nat)
    ensures 2 * p * v == 2 * (p * v)
  {
  }

  /** Bit i of a word has weight 2^i. */
  lemma {:induction false} ValConcat(a: Word, b: Word)
    ensures Val(a + b) == Val(a) + Pow2(|a|) * Val(b)
  {
    if a == [] {
      assert a + b == b;
    } else {
      assert (a + b)[1..] == a[1..] + b;
      ValConcat(a[1..], b);
      Doubled(Pow2(|a| - 1), Val(b));
    }
  }

  lemma {:induction false} ValOfBits(v: nat, w: nat)
    requires v < Pow2(w)
    ensures Val(ToBits(v, w)) == v
  {
    if w > 0 {
      ValOfBits(v / 2, w - 1);
    }
  }

  lemma {:induction false} BitsOfVal(b: Word)
    ensures ToBits(Val(b), |b|) == b
  {
    if b != [] {
      BitsOfVal(b[1..]);
      assert Val(b) / 2 == Val(b[1..]);
    }
  }

  lemma {:induction false} ValResize(b: Word, width: nat)
    requires |b| <= width
    ensures Val(Resize(b, width)) == Val(b)
  {
    if width > 0 {
      var tail := if b == [] then [] else b[1..];
      ValResize(tail, width - 1);
      assert Resize(b, width)[1..] == Resize(tail, width - 1);
      if b == [] {
        assert Val(Resize([], width)) == 2 * Val(Resize([], width - 1));
      }
    }
  }

  /** A value that needs only w bits is its w-bit form padded with zeros. */
  lemma {:induction false} BitsResize(v: nat, w: nat, width: nat)
    requires v < Pow2(w) && w <= width
    ensures ToBits(v, width) == Resize(ToBits(v, w), width)
  {
    if width > 0 {
      var inner := if w == 0 then 0 else w - 1;
      BitsResize(v / 2, inner, width - 1);
      assert w == 0 ==> v == 0;
      assert Resize(ToBits(v, w), width)[1..] == Resize(ToBits(v / 2, inner), width - 1);
    }
  }

  lemma {:induction false} PowGrows(a: nat, b: nat)
    requires a <= b
    ensures Pow2(a) <= Pow2(b)
  {
    if a < b {
      PowGrows(a, b - 1);
    }
  }

  lemma {:induction false} PowAdd(a: nat, b: nat)
    ensures Pow2(a + b) == Pow2(a) * Pow2(b)
  {
    if b > 0 {
      PowAdd(a, b - 1);
    }
  }

  lemma Sixteen()
    ensures Pow2(16) == 65536
  {
    PowAdd(4, 4);
    PowAdd(8, 8);
  }

  /** 16-bit words and the numbers below 65536. */
  lemma {:induction false} Short(b: Word)
    requires |b| == 16
    ensures Val(b) < 65536 && ToBits(Val(b), 16) == b
  {
    Sixteen();
    ValBound(b);
    BitsOfVal(b);
  }

  lemma {:induction false} ShortBits(v: nat)
    requires v < 65536
    ensures Val(ToBits(v, 16)) == v
  {
    Sixteen();
    ValOfBits(v, 16);
  }
}
