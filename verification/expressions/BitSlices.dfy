/** Bit slices of a word, read and written by the emitted C expressions. */
module BitSlices {
  import opened Arithmetic

  /** The bits of an unsigned word, the least significant one first. */
  type Word = seq<bool>

  function Num(w: Word): nat {
    if w == [] then 0 else (if w[0] then 1 else 0) + 2 * Num(w[1..])
  }

  function Pow2(n: nat): (p: nat)
    ensures p > 0
  {
    if n == 0 then 1 else 2 * Pow2(n - 1)
  }

  function Shl(w: Word, n: nat): (r: Word)
    ensures |r| == |w|
  {
    seq(|w|, i requires 0 <= i < |w| => i >= n && w[i - n])
  }

  function Shr(w: Word, n: nat): (r: Word)
    ensures |r| == |w|
  {
    seq(|w|, i requires 0 <= i < |w| => i + n < |w| && w[i + n])
  }

  function And(v: Word, w: Word): (r: Word)
    requires |v| == |w|
    ensures |r| == |w|
  {
    seq(|w|, i requires 0 <= i < |w| => v[i] && w[i])
  }

  function Or(v: Word, w: Word): (r: Word)
    requires |v| == |w|
    ensures |r| == |w|
  {
    seq(|w|, i requires 0 <= i < |w| => v[i] || w[i])
  }

  function Not(w: Word): (r: Word)
    ensures |r| == |w|
  {
    seq(|w|, i requires 0 <= i < |w| => !w[i])
  }

  /** MASK(n): n ones. */
  function Mask(n: nat, width: nat): (r: Word)
    ensures |r| == width
  {
    seq(width, i => i < n)
  }

  /** MASK1(n), for a slice whose ends are n apart. */
  function Mask1(n: nat, width: nat): (r: Word)
    ensures |r| == width
  {
    Mask(n + 1, width)
  }

  /** MIX(x, y, mask): y under the mask and x elsewhere. */
  function Mix(x: Word, y: Word, mask: Word): (r: Word)
    requires |x| == |y| == |mask|
    ensures |r| == |x|
  {
    Or(And(x, Not(mask)), And(y, mask))
  }

  predicate Slice(hi: nat, lo: nat, width: nat) {
    lo <= hi < width
  }

  /** The emitted expression for e[hi:lo]. */
  function Read(e: Word, hi: nat, lo: nat): (r: Word)
    requires Slice(hi, lo, |e|)
    ensures |r| == |e|
  {
    And(Shr(e, lo), Mask1(hi - lo, |e|))
  }

  /** The word that the emitted assignment to e[hi:lo] stores. */
  function Write(e: Word, hi: nat, lo: nat, v: Word): (r: Word)
    requires Slice(hi, lo, |e|) && |v| == |e|
    ensures |r| == |e|
  {
    Mix(e, Shl(v, lo), Shl(Mask1(hi - lo, |e|), lo))
  }

  // ----- words as numbers -----

  lemma {:induction false} NumBound(w: Word)
    ensures Num(w) < Pow2(|w|)
  {
    if w != [] {
      NumBound(w[1..]);
    }
  }

  lemma Double(a: int, b: int)
    ensures 2 * a * b == 2 * (a * b)
  {
  }

  /** The high bits after the low ones. */
  lemma {:induction false} NumSplit(w: Word, n: nat)
    requires n <= |w|
    ensures Num(w) == Num(w[..n]) + Pow2(n) * Num(w[n..])
    decreases n
  {
    if n > 0 {
      NumSplit(w[1..], n - 1);
      assert w[1..][..n - 1] == w[..n][1..] && w[1..][n - 1..] == w[n..];
      Double(Pow2(n - 1), Num(w[n..]));
    } else {
      assert w[0..] == w && w[..0] == [];
    }
  }

  lemma {:induction false} NumZeros(w: Word)
    requires forall i | 0 <= i < |w| :: !w[i]
    ensures Num(w) == 0
  {
    if w != [] {
      NumZeros(w[1..]);
    }
  }

  lemma {:induction false} NumOnes(w: Word)
    requires forall i | 0 <= i < |w| :: w[i]
    ensures Num(w) == Pow2(|w|) - 1
  {
    if w != [] {
      NumOnes(w[1..]);
    }
  }

  lemma Parts(x: nat, q: nat, r: nat, d: nat)
    requires r < d && x == r + d * q
    ensures x / d == q && x % d == r
  {
    assert d * q == q * d;
    Divide(q, r, d);
  }

  /** The low n bits are the remainder, the rest the quotient. */
  lemma LowHigh(w: Word, n: nat)
    requires n <= |w|
    ensures Num(w[..n]) == Num(w) % Pow2(n) && Num(w[n..]) == Num(w) / Pow2(n)
  {
    NumSplit(w, n);
    NumBound(w[..n]);
    Parts(Num(w), Num(w[n..]), Num(w[..n]), Pow2(n));
    hide *;
  }

  /** A word that is zero from n on. */
  lemma NumLow(w: Word, n: nat)
    requires n <= |w| && forall i | n <= i < |w| :: !w[i]
    ensures Num(w) == Num(w[..n])
  {
    NumSplit(w, n);
    NumZeros(w[n..]);
  }

  lemma ShrIsQuotient(w: Word, n: nat)
    requires n <= |w|
    ensures Num(Shr(w, n)) == Num(w) / Pow2(n)
  {
    LowHigh(w, n);
    NumLow(Shr(w, n), |w| - n);
    assert Shr(w, n)[..|w| - n] == w[n..];
    hide *;
  }

  lemma NumShl(w: Word, n: nat)
    requires n <= |w|
    ensures Num(Shl(w, n)) == Pow2(n) * Num(w[..|w| - n])
  {
    var x := Shl(w, n);
    assert x[n..] == w[..|w| - n] && forall i | 0 <= i < n :: !x[..n][i];
    hide *;
    NumSplit(x, n);
    NumZeros(x[..n]);
  }

  lemma ShlIsProduct(w: Word, n: nat)
    requires n <= |w|
    ensures Num(Shl(w, n)) == Pow2(n) * Num(w) % Pow2(|w|)
  {
    hide *;
    NumShl(w, n);
    LowHigh(w, |w| - n);
    ShiftLeft(Num(w), n, |w|);
  }

  lemma MaskIsOnes(n: nat, width: nat)
    requires n <= width
    ensures Num(Mask(n, width)) == Pow2(n) - 1
  {
    NumLow(Mask(n, width), n);
    NumOnes(Mask(n, width)[..n]);
    hide *;
  }

  /** The operations on bits are the shifts of C, and the mask is 2^n - 1. */
  lemma ShiftsAreArithmetic(w: Word, n: nat)
    requires n <= |w|
    ensures Num(Shr(w, n)) == Num(w) / Pow2(n)
    ensures Num(Shl(w, n)) == Pow2(n) * Num(w) % Pow2(|w|)
    ensures Num(Mask(n, |w|)) == Pow2(n) - 1
  {
    hide *;
    ShrIsQuotient(w, n);
    ShlIsProduct(w, n);
    MaskIsOnes(n, |w|);
  }

  lemma {:induction false} PowAdd(a: nat, b: nat)
    ensures Pow2(a + b) == Pow2(a) * Pow2(b)
  {
    if a > 0 {
      PowAdd(a - 1, b);
      assert Pow2(a) * Pow2(b) == 2 * (Pow2(a - 1) * Pow2(b));
    }
  }

  lemma ShiftLeft(x: nat, n: nat, width: nat)
    requires n <= width
    ensures Pow2(n) * (x % Pow2(width - n)) == Pow2(n) * x % Pow2(width)
  {
    PowAdd(n, width - n);
    ScaledRemainder(x, Pow2(n), Pow2(width - n));
  }

  lemma ScaledRemainder(x: nat, k: nat, d: nat)
    requires k > 0 && d > 0
    ensures k * d > 0 && k * (x % d) == k * x % (k * d)
  {
    var q, r := x / d, x % d;
    var kd, kr := k * d, k * r;
    TimesMonotone(r + 1, d, k);
    assert kr < kd by { assert (r + 1) * k == kr + k; }
    assert k * x == q * kd + kr by {
      assert x == q * d + r;
      Distribute(k, q * d, r);
      Swap(k, q, d);
    }
    Divide(q, kr, kd);
  }

  lemma Distribute(k: int, a: int, b: int)
    ensures k * (a + b) == k * a + k * b
  {
  }

  lemma Swap(k: int, q: int, d: int)
    ensures k * (q * d) == q * (k * d)
  {
  }

  // ----- reading and writing -----

  /** Bit by bit: a read takes the bits from lo to hi down to 0. */
  lemma ReadBits(e: Word, hi: nat, lo: nat, i: nat)
    requires Slice(hi, lo, |e|) && i < |e|
    ensures Read(e, hi, lo)[i] == (i <= hi - lo && e[lo + i])
  {
  }

  /** Bit by bit: a write changes the bits from lo to hi alone. */
  lemma WriteBits(e: Word, hi: nat, lo: nat, v: Word, i: nat)
    requires Slice(hi, lo, |e|) && |v| == |e| && i < |e|
    ensures Write(e, hi, lo, v)[i] == if lo <= i <= hi then v[i - lo] else e[i]
  {
  }

  /** A read is the quotient by 2^lo modulo 2^(hi - lo + 1). */
  lemma ReadIsField(e: Word, hi: nat, lo: nat)
    requires Slice(hi, lo, |e|)
    ensures Num(Read(e, hi, lo)) == Num(e) / Pow2(lo) % Pow2(hi - lo + 1)
  {
    var r, n := Read(e, hi, lo), hi - lo + 1;
    NumLow(r, n);
    assert r[..n] == e[lo..][..n];
    LowHigh(e, lo);
    LowHigh(e[lo..], n);
  }

  /** Reading what has been written gives the low bits of the value. */
  lemma ReadWritten(e: Word, hi: nat, lo: nat, v: Word)
    requires Slice(hi, lo, |e|) && |v| == |e|
    ensures Num(Read(Write(e, hi, lo, v), hi, lo)) == Num(v) % Pow2(hi - lo + 1)
  {
    var r, n := Read(Write(e, hi, lo, v), hi, lo), hi - lo + 1;
    forall i | 0 <= i < |r|
      ensures r[i] == (i < n && v[i])
    {
      ReadBits(Write(e, hi, lo, v), hi, lo, i);
      if i < n {
        WriteBits(e, hi, lo, v, lo + i);
      }
    }
    hide Read, Write;
    NumLow(r, n);
    assert r[..n] == v[..n];
    hide *;
    LowHigh(v, n);
  }

  /** Writing what has been read changes nothing. */
  lemma WriteRead(e: Word, hi: nat, lo: nat)
    requires Slice(hi, lo, |e|)
    ensures Write(e, hi, lo, Read(e, hi, lo)) == e
  {
  }

  /** The second of two writes wins. */
  lemma WriteTwice(e: Word, hi: nat, lo: nat, v: Word, w: Word)
    requires Slice(hi, lo, |e|) && |v| == |w| == |e|
    ensures Write(Write(e, hi, lo, v), hi, lo, w) == Write(e, hi, lo, w)
  {
  }

  predicate Beside(hi: nat, lo: nat, h: nat, l: nat) {
    h < lo || hi < l
  }

  /** A write beside a slice does not change it, and writes beside each other commute. */
  lemma WriteBeside(e: Word, hi: nat, lo: nat, v: Word, h: nat, l: nat, w: Word)
    requires Slice(hi, lo, |e|) && Slice(h, l, |e|) && Beside(hi, lo, h, l) && |v| == |w| == |e|
    ensures Read(Write(e, hi, lo, v), h, l) == Read(e, h, l)
    ensures Write(Write(e, hi, lo, v), h, l, w) == Write(Write(e, h, l, w), hi, lo, v)
  {
  }
}
