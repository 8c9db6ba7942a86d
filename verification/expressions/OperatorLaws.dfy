/** What the operators of the folder and of the run time compute, as laws on their values. */
module OperatorLaws {
  import opened Common
  import opened Arithmetic
  import opened BitSlices
  import opened ConstantFolding

  const LIMIT := 0x8000_0000_0000_0000

  lemma PowersOf64()
    ensures Pow2(63) == LIMIT && Pow2(64) == 2 * LIMIT
  {
    assert Pow2(8) == 0x100;
    PowAdd(8, 8);
    PowAdd(16, 16);
    PowAdd(32, 31);
    PowAdd(16, 15);
    PowAdd(8, 7);
  }

  /** Values have 64 bits. */
  lemma RangeIs(x: int)
    ensures InRange(x) <==> -LIMIT <= x < LIMIT
  {
    PowersOf64();
  }

  // ----- sums, products, quotients -----

  /** A sum is what gives one operand when the other is taken away, and a difference what gives the
      first operand when the second is added. */
  lemma SumsAndDifferences(x: int, y: int, z: int)
    requires InRange(x) && InRange(y)
    ensures Apply(Add, x, y) == Some(z) <==> InRange(z) && z - x == y
    ensures Apply(Sub, x, y) == Some(z) <==> InRange(z) && y + z == x
    ensures ApplyUn(Negate, x) == Some(z) <==> InRange(z) && x + z == 0
  {
  }

  lemma SubUndoesAdd(x: int, y: int, z: int)
    requires InRange(x) && InRange(y) && InRange(z)
    ensures Apply(Add, x, y) == Some(z) <==> Apply(Sub, z, y) == Some(x)
    ensures Apply(Add, x, y) == Apply(Add, y, x)
  {
    hide InRange;
  }

  /** Multiplication is repeated addition. */
  lemma ProductStep(x: int, y: int)
    requires InRange(x) && InRange(y) && InRange(y + 1) && InRange(-y)
    ensures Apply(Mul, x, 0) == Some(0) && Apply(Mul, x, 1) == Some(x) && Apply(Mul, x, y) == Apply(Mul, y, x)
    ensures Apply(Mul, x, y).Some? ==> Apply(Mul, x, y + 1) == Apply(Add, Apply(Mul, x, y).value, x)
    ensures Apply(Mul, x, y).Some? ==> Apply(Mul, x, -y) == ApplyUn(Negate, Apply(Mul, x, y).value)
  {
    RangeIs(0);
    RangeIs(1);
    assert InRange(0) && InRange(1);
    hide *;
    Plain(x, 0);
    Plain(x, 1);
    Plain(x, y);
    Plain(y, x);
    Plain(x, y + 1);
    Plain(x, -y);
    InRangeOf(0);
    InRangeOf(x);
    InRangeOf(x * y);
    if InRange(x * y) {
      Plain(x * y, x);
    }
    Distribute(x, y, 1);
    Signs(x, y);
    Commute(x, y);
  }

  /** Where all of it is defined, multiplication distributes over addition. */
  lemma MulDistributes(x: int, y: int, z: int)
    requires InRange(x) && InRange(y) && InRange(z)
    requires Apply(Add, y, z).Some? && Apply(Mul, x, y).Some? && Apply(Mul, x, z).Some?
    ensures Apply(Mul, x, Apply(Add, y, z).value) == Apply(Add, Apply(Mul, x, y).value, Apply(Mul, x, z).value)
  {
    hide *;
    Plain(x, y);
    Plain(x, z);
    Plain(y, z);
    InRangeOf(y + z);
    InRangeOf(x * y);
    InRangeOf(x * z);
    Plain(x, y + z);
    Plain(x * y, x * z);
    Distribute(x, y, z);
  }

  lemma Plain(x: int, y: int)
    requires InRange(x) && InRange(y)
    ensures Apply(Mul, x, y) == Checked(x * y) && Apply(Add, x, y) == Checked(x + y)
    ensures ApplyUn(Negate, x) == Checked(-x)
  {
    hide InRange, Checked, Quotient;
  }

  lemma InRangeOf(x: int)
    ensures Checked(x) == if InRange(x) then Some(x) else None
  {
  }

  predicate Divides(x: int, y: int, q: int, r: int) {
    x == q * y + r && -Abs(y) < r < Abs(y) && (r > 0 ==> x > 0) && (r < 0 ==> x < 0)
  }

  function Abs(x: int): int {
    if x < 0 then -x else x
  }

  lemma Signs(d: int, k: int)
    ensures -d * -k == d * k && d * -k == -(d * k) && -d * k == -(d * k)
  {
  }

  lemma Splits(n: int, d: int)
    requires d > 0
    ensures n == d * (n / d) + n % d && 0 <= n % d < d
  {
  }

  lemma QuotientCases(x: int, y: int)
    requires y != 0
    ensures var k := Abs(x) / Abs(y); Quotient(x, y) == if (x >= 0) == (y > 0) then k else -k
  {
  }

  lemma QuotientDivides(x: int, y: int)
    requires y != 0
    ensures Divides(x, y, Quotient(x, y), x - y * Quotient(x, y))
  {
    var n, d := Abs(x), Abs(y);
    var k: int := n / d;
    Splits(n, d);
    QuotientCases(x, y);
    hide Quotient;
    NotNegative(n, d);
    TimesMonotone(0, d, k);
    DividesBySigns(x, y, k, Quotient(x, y), n % d);
  }

  lemma DividesBySigns(x: int, y: int, k: int, q: int, r: int)
    requires y != 0 && Abs(x) == Abs(y) * k + r && 0 <= r < Abs(y) && q == if (x >= 0) == (y > 0) then k else -k
    requires Abs(y) * k >= 0
    ensures Divides(x, y, q, x - y * q)
  {
    TimesSign(x >= 0, y, k, q);
    RemainderSign(x, y, Abs(y) * k, y * q, r);
    Commute(y, q);
  }

  lemma TimesSign(b: bool, y: int, k: int, q: int)
    requires q == if b == (y > 0) then k else -k
    ensures y * q == if b then Abs(y) * k else -(Abs(y) * k)
  {
    Signs(y, k);
  }

  lemma RemainderSign(x: int, y: int, whole: int, m: int, r: int)
    requires Abs(x) == whole + r && 0 <= r < Abs(y) && m == if x >= 0 then whole else -whole
    requires whole >= 0
    ensures -Abs(y) < x - m < Abs(y) && (x - m > 0 ==> x > 0) && (x - m < 0 ==> x < 0)
  {
  }

  lemma Commute(a: int, b: int)
    ensures a * b == b * a
  {
  }

  lemma NotNegative(n: int, d: int)
    requires n >= 0 && d > 0
    ensures n / d >= 0
  {
  }

  lemma QuotientBound(x: int, y: int)
    requires y != 0
    ensures Abs(Quotient(x, y)) <= Abs(x)
    ensures Abs(y) > 1 && x != 0 ==> Abs(Quotient(x, y)) < Abs(x)
    ensures y == 1 ==> Quotient(x, y) == x
    ensures y == -1 ==> Quotient(x, y) == -x
  {
    var n, d := Abs(x), Abs(y);
    var k: int := n / d;
    Splits(n, d);
    QuotientCases(x, y);
    hide Quotient;
    NotNegative(n, d);
    TimesMonotone(1, d, k);
    if d > 1 {
      TimesMonotone(2, d, k);
    }
  }

  /** Division truncates towards zero, and the remainder has the sign of the dividend; both are
      undefined only for a zero divisor and where the quotient does not fit. */
  lemma DivisionLaw(x: int, y: int)
    requires InRange(x) && InRange(y)
    ensures Apply(Div, x, y).None? <==> y == 0 || (x == -LIMIT && y == -1)
    ensures Apply(Mod, x, y).None? <==> y == 0 || (x == -LIMIT && y == -1)
    ensures Apply(Div, x, y).Some? ==> Divides(x, y, Apply(Div, x, y).value, Apply(Mod, x, y).value)
  {
    RangeIs(x);
    RangeIs(y);
    if y != 0 {
      var q := Quotient(x, y);
      QuotientDivides(x, y);
      QuotientBound(x, y);
      RangeIs(q);
      RangeIs(x - y * q);
    }
    hide InRange, Quotient;
  }

  /** These determine the quotient and the remainder. */
  lemma DivisionIsUnique(x: int, y: int, q: int, r: int, q': int, r': int)
    requires y != 0 && Divides(x, y, q, r) && Divides(x, y, q', r')
    ensures q == q' && r == r'
  {
    assert -Abs(y) < r' - r < Abs(y);
    var e := q - q';
    assert e * y == r' - r;
    AbsTimes(e, y);
    if e != 0 {
      TimesMonotone(1, Abs(e), Abs(y));
    }
  }

  lemma AbsTimes(a: int, b: int)
    ensures Abs(a * b) == Abs(a) * Abs(b)
  {
    Signs(a, b);
    if a > 0 {
      TimesMonotone(1, a, Abs(b));
    } else if a < 0 {
      TimesMonotone(1, -a, Abs(b));
    }
  }

  // ----- comparisons and logic -----

  /** Of less, equal and greater exactly one holds, by the sign of the difference, and the others are
      their negations. */
  lemma Comparisons(x: int, y: int)
    requires InRange(x) && InRange(y)
    ensures Apply(Less, x, y) == Some(if x - y < 0 then 1 else 0)
    ensures Apply(Eq, x, y) == Some(if x - y == 0 then 1 else 0)
    ensures Apply(Greater, x, y) == Apply(Less, y, x)
    ensures Apply(LessEq, x, y) == ApplyUn(UnOp.Not, Apply(Greater, x, y).value)
    ensures Apply(GreaterEq, x, y) == ApplyUn(UnOp.Not, Apply(Less, x, y).value)
    ensures Apply(Ne, x, y) == ApplyUn(UnOp.Not, Apply(Eq, x, y).value)
    ensures Apply(Less, x, y).value + Apply(Eq, x, y).value + Apply(Greater, x, y).value == 1
  {
    RangeIs(0);
    RangeIs(1);
    hide InRange;
  }

  /** The logical operators look at whether their operands are 0. */
  lemma Logic(x: int, y: int)
    requires InRange(x) && InRange(y)
    ensures ApplyUn(UnOp.Not, x) == Some(1) <==> x == 0
    ensures ApplyUn(UnOp.Not, x) == Some(0) <==> x != 0
    ensures Apply(AndAnd, x, y) == Some(0) <==> x == 0 || y == 0
    ensures Apply(AndAnd, x, y) == Some(1) <==> x != 0 && y != 0
    ensures Apply(OrOr, x, y).Some? && ApplyUn(UnOp.Not, x).Some? && ApplyUn(UnOp.Not, y).Some?
    ensures ApplyUn(UnOp.Not, Apply(OrOr, x, y).value) ==
            Apply(AndAnd, ApplyUn(UnOp.Not, x).value, ApplyUn(UnOp.Not, y).value)
    ensures Apply(OrOr, x, y).value == 0 || Apply(OrOr, x, y).value == 1
    ensures ApplyUn(Plus, x) == Some(x)
  {
    RangeIs(0);
    RangeIs(1);
    hide InRange;
  }

  // ----- shifts -----

  /** Shifts to the right are defined for counts below the width, and one more place halves downwards. */
  lemma RightShiftStep(x: int, y: int)
    requires InRange(x) && InRange(y)
    ensures Apply(RightShift, x, 0) == Some(x)
    ensures Apply(RightShift, x, y).Some? <==> 0 <= y < 64
    ensures 0 < y < 64 ==>
              && InRange(y - 1) && Apply(RightShift, x, y - 1).Some?
              && Apply(RightShift, x, y) == Some(Apply(RightShift, x, y - 1).value / 2)
  {
    RangeIs(x);
    RangeIs(y);
    RangeIs(y - 1);
    assert Pow2(0) == 1;
    if 0 <= y < 64 {
      Shrinks(x, Pow2(y));
      RangeIs(x / Pow2(y));
    }
    if 0 < y < 64 {
      HalfAgain(x, Pow2(y - 1));
      Shrinks(x, Pow2(y - 1));
      RangeIs(x / Pow2(y - 1));
    }
    hide InRange, Pow2;
  }

  /** Shifts to the left are defined, for counts below the width, for values that are not negative as
      long as the result fits; one more place doubles. */
  lemma LeftShiftStep(x: int, y: int)
    requires InRange(x) && InRange(y)
    ensures Apply(LeftShift, x, 0) == if x >= 0 then Some(x) else None
    ensures Apply(LeftShift, x, y).Some? ==> 0 <= y < 64 && x >= 0
    ensures 0 < y < 64 ==>
              && InRange(y - 1)
              && (Apply(LeftShift, x, y).Some? <==>
                  Apply(LeftShift, x, y - 1).Some? && InRange(2 * Apply(LeftShift, x, y - 1).value))
              && (Apply(LeftShift, x, y).Some? ==> Apply(LeftShift, x, y).value == 2 * Apply(LeftShift, x, y - 1).value)
  {
    RangeIs(x);
    RangeIs(y);
    RangeIs(y - 1);
    assert Pow2(0) == 1;
    if 0 < y < 64 && x >= 0 {
      var z := x * Pow2(y - 1);
      assert x * Pow2(y) == 2 * z by { DoubleTimes(x, Pow2(y - 1)); }
      TimesMonotone(0, x, Pow2(y - 1));
      RangeIs(z);
      RangeIs(2 * z);
    }
    hide InRange, Pow2;
  }

  lemma DoubleTimes(x: int, p: int)
    ensures x * (2 * p) == 2 * (x * p)
  {
  }

  lemma Shrinks(x: int, p: nat)
    requires p > 0
    ensures -Abs(x) <= x / p <= Abs(x)
  {
    Splits(x, p);
    var q: int := x / p;
    if q > 0 {
      TimesMonotone(1, p, q);
    } else if q < 0 {
      TimesMonotone(1, p, -q - 1);
      Signs(p, -q - 1);
      Plus1(p, q);
    }
  }

  lemma Plus1(p: int, q: int)
    ensures p * (q + 1) == p * q + p
  {
  }

  lemma HalfAgain(x: int, p: nat)
    requires p > 0
    ensures x / (2 * p) == x / p / 2
  {
    Splits(x, p);
    var q, r := x / p, x % p;
    var h, b := q / 2, q % 2;
    Distribute(p, 2 * h, b);
    DoubleTimes(p, h);
    Swap(2, p, h);
    assert p * q == (2 * p) * h + p * b;
    QuotientIs(x, 2 * p, h, p * b + r);
  }

  lemma QuotientIs(x: int, d: nat, q: int, r: int)
    requires x == d * q + r && 0 <= r < d
    ensures x / d == q
  {
    var k: int := x / d;
    Splits(x, d);
    if k < q {
      TimesMonotone(k + 1, q, d);
    } else if q < k {
      TimesMonotone(q + 1, k, d);
    }
  }

  /** Where nothing is lost a shift to the right undoes one to the left. */
  lemma RightUndoesLeft(x: int, y: int)
    requires InRange(x) && InRange(y) && Apply(LeftShift, x, y).Some?
    ensures Apply(RightShift, Apply(LeftShift, x, y).value, y) == Some(x)
  {
    QuotientIs(x * Pow2(y), Pow2(y), x, 0);
    hide InRange, Pow2;
  }

  // ----- bits -----

  /** Bit i of a number in two's complement. */
  predicate Bit(x: int, i: nat)
    decreases i
  {
    if i == 0 then x % 2 == 1 else Bit(x / 2, i - 1)
  }

  lemma {:induction false} BitOfBits(n: nat, k: nat, i: nat)
    requires i < k
    ensures Bits(n, k)[i] == Bit(n, i)
    decreases i
  {
    if i > 0 {
      BitOfBits(n / 2, k - 1, i - 1);
      assert Bits(n, k)[i] == Bits(n / 2, k - 1)[i - 1];
    }
  }

  lemma {:induction false} BitOfShifted(x: int, k: nat, i: nat)
    requires i < k
    ensures Bit(x + Pow2(k), i) == Bit(x, i)
    decreases i
  {
    assert Pow2(k) == 2 * Pow2(k - 1);
    if i > 0 {
      BitOfShifted(x / 2, k - 1, i - 1);
      assert (x + Pow2(k)) / 2 == x / 2 + Pow2(k - 1);
    }
  }

  lemma BitOfWord(x: int, i: nat)
    requires InRange(x) && i < WIDTH
    ensures ToWord(x)[i] == Bit(x, i)
  {
    hide Bits, Bit, Pow2;
    if x < 0 {
      BitOfShifted(x, WIDTH, i);
    }
    Unsigned(x);
    BitOfBits(if x < 0 then x + Pow2(WIDTH) else x, WIDTH, i);
  }

  lemma Unsigned(x: int)
    requires InRange(x)
    ensures x < Pow2(WIDTH) && x + Pow2(WIDTH) >= 0 && Pow2(WIDTH) == 2 * Pow2(WIDTH - 1)
  {
    hide Bits;
  }

  lemma WordOfNumber(w: Word)
    requires |w| == WIDTH
    ensures ToWord(FromWord(w)) == w
  {
    Unsigned(FromWord(w));
    hide Bits, Num, Pow2, InRange;
    NumBound(w);
    BitsNumber(Num(w), WIDTH);
    NumInjective(Bits(Num(w), WIDTH), w);
  }

  /** The bitwise operators, bit by bit. */
  lemma BitByBit(x: int, y: int, i: nat)
    requires InRange(x) && InRange(y) && i < 64
    ensures Apply(BitOr, x, y).Some? && (Bit(Apply(BitOr, x, y).value, i) <==> Bit(x, i) || Bit(y, i))
    ensures Apply(BitXor, x, y).Some? && (Bit(Apply(BitXor, x, y).value, i) <==> Bit(x, i) != Bit(y, i))
    ensures Apply(BitAnd, x, y).Some? && (Bit(Apply(BitAnd, x, y).value, i) <==> Bit(x, i) && Bit(y, i))
  {
    hide Bit, Bits, ToWord, FromWord, InRange, Quotient, Checked, Pow2, Or, Xor, And;
    var v, w := ToWord(x), ToWord(y);
    BitOfWord(x, i);
    BitOfWord(y, i);
    OperatorBits(v, w, i);
    WordBit(Or(v, w), i);
    WordBit(Xor(v, w), i);
    WordBit(And(v, w), i);
  }

  lemma OperatorBits(v: Word, w: Word, i: nat)
    requires |v| == |w| && i < |v|
    ensures Or(v, w)[i] <==> v[i] || w[i]
    ensures Xor(v, w)[i] <==> v[i] != w[i]
    ensures And(v, w)[i] <==> v[i] && w[i]
  {
  }

  lemma WordBit(w: Word, i: nat)
    requires |w| == WIDTH && i < WIDTH
    ensures Bit(FromWord(w), i) == w[i]
  {
    WordOfNumber(w);
    BitOfWord(FromWord(w), i);
    hide Bit, ToWord, FromWord;
  }

  lemma {:induction false} BitOfComplement(x: int, i: nat)
    ensures Bit(-x - 1, i) == !Bit(x, i)
    decreases i
  {
    if i > 0 {
      assert (-x - 1) / 2 == -(x / 2) - 1;
      BitOfComplement(x / 2, i - 1);
    }
  }

  /** The complement flips every bit, and is one less than the negation. */
  lemma ComplementLaw(x: int, i: nat)
    requires InRange(x)
    ensures ApplyUn(Complement, x).Some? && (Bit(ApplyUn(Complement, x).value, i) <==> !Bit(x, i))
    ensures ApplyUn(Negate, x).Some? ==> Apply(Add, ApplyUn(Complement, x).value, 1) == ApplyUn(Negate, x)
  {
    BitOfComplement(x, i);
    RangeIs(1);
    hide Bit;
  }

  /** The bits determine a value. */
  lemma BitsDetermine(x: int, y: int)
    requires InRange(x) && InRange(y) && forall i | 0 <= i < WIDTH :: Bit(x, i) == Bit(y, i)
    ensures x == y
  {
    forall i | 0 <= i < WIDTH
      ensures ToWord(x)[i] == ToWord(y)[i]
    {
      BitOfWord(x, i);
      BitOfWord(y, i);
    }
    hide Bit;
    assert ToWord(x) == ToWord(y);
    NumberOfWord(x);
    NumberOfWord(y);
  }

  lemma NumberOfWord(x: int)
    requires InRange(x)
    ensures FromWord(ToWord(x)) == x
  {
    Unsigned(x);
    hide Bits, Num, Pow2;
    BitsNumber(if x < 0 then x + Pow2(WIDTH) else x, WIDTH);
  }
}
