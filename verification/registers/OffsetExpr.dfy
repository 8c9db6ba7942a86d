/** Register offset expressions, and reading them off as a base and one stride per array level. */
module OffsetExpr {
  import opened Common

  /** An index term names the array level whose index it stands for, outermost first. */
  datatype Expr =
    | Int(value: nat)
    | Index(level: nat)
    | Add(left: Expr, right: Expr)
    | Mul(left: Expr, right: Expr)
    | Brack(inner: Expr)
    | Undefined

  function Eval(e: Expr, idx: seq<int>): int {
    match e
    case Int(v) => v
    case Index(j) => if j < |idx| then idx[j] else 0
    case Add(l, r) => Eval(l, idx) + Eval(r, idx)
    case Mul(l, r) => Eval(l, idx) * Eval(r, idx)
    case Brack(i) => Eval(i, idx)
    case Undefined => 0
  }

  /** What the expression checker folds to a constant. */
  predicate IsConst(e: Expr) {
    match e
    case Int(_) => true
    case Add(l, r) => IsConst(l) && IsConst(r)
    case Mul(l, r) => IsConst(l) && IsConst(r)
    case Brack(i) => IsConst(i)
    case _ => false
  }

  /** The expression with literals for the indices. */
  function Substituted(e: Expr, idx: seq<nat>): Expr {
    match e
    case Index(j) => Int(if j < |idx| then idx[j] else 0)
    case Add(l, r) => Add(Substituted(l, idx), Substituted(r, idx))
    case Mul(l, r) => Mul(Substituted(l, idx), Substituted(r, idx))
    case Brack(i) => Brack(Substituted(i, idx))
    case _ => e
  }

  predicate Defined(e: Expr) {
    match e
    case Undefined => false
    case Add(l, r) => Defined(l) && Defined(r)
    case Mul(l, r) => Defined(l) && Defined(r)
    case Brack(i) => Defined(i)
    case _ => true
  }

  /** The value of an expression under an index vector is that of the constant it becomes with these
      indices written into it. */
  lemma {:induction false} EvalSubstituted(e: Expr, idx: seq<nat>)
    requires Defined(e)
    ensures IsConst(Substituted(e, idx)) && Eval(e, idx) == Eval(Substituted(e, idx), [])
  {
    match e
    case Add(l, r) => EvalSubstituted(l, idx); EvalSubstituted(r, idx);
    case Mul(l, r) => EvalSubstituted(l, idx); EvalSubstituted(r, idx);
    case Brack(i) => EvalSubstituted(i, idx);
    case _ =>
  }

  const MAX_DEPTH := 8

  /** A base, the strides by array level, and the level that the next stride is for. */
  datatype Linear = Linear(offset: int, interval: seq<int>, next: nat)

  const ZERO := Linear(0, seq(MAX_DEPTH, _ => 0), 0)

  /** What a linear form stands for. */
  function Dot(strides: seq<int>, idx: seq<int>): int {
    if strides == [] || idx == [] then 0 else strides[0] * idx[0] + Dot(strides[1..], idx[1..])
  }

  function Value(l: Linear, idx: seq<int>): int {
    l.offset + Dot(l.interval, idx)
  }

  /** Done, or the register has no offset of its own, or the compiler stops with an error
      (or reads a variable that it has not set, or writes past its strides). */
  datatype Outcome = Done(linear: Linear) | NoOffset | Stops

  // ----- the two passes as functions -----

  /** The literal of a product. */
  function Factor(e: Expr): Option<nat>
    requires e.Mul?
  {
    if e.left.Int? then Some(e.left.value) else if e.right.Int? then Some(e.right.value) else None
  }

  function Push(l: Linear, stride: int): Option<Linear> {
    if l.next < |l.interval| then Some(l.(interval := l.interval[l.next := stride], next := l.next + 1)) else None
  }

  /** Left-nested sums, from the left. */
  function ReadSum(e: Expr, l: Linear): Option<Linear> {
    match e
    case Add(left, right) =>
      var l1 := if left.Int? then Some(l.(offset := left.value)) else ReadSum(left, l);
      if l1.None? then None
      else if right.Mul? then
        var k := Factor(right);
        if k.None? then None else Push(l1.value, k.value)
      else if right.Index? then Push(l1.value, 1)
      else None
    case Mul(_, _) =>
      var k := Factor(e);
      if k.None? then None else Push(l, k.value)
    case _ => None
  }

  /** Positive strides are multiplied, the rest is left alone. */
  function Scale(strides: seq<int>, k: int): (r: seq<int>)
    ensures |r| == |strides|
  {
    if strides == [] then []
    else [if strides[0] > 0 then strides[0] * k else strides[0]] + Scale(strides[1..], k)
  }

  /** The part of a sum besides its constant, under an outer factor if there is one. */
  function ReadProduct(e: Expr, outer: Option<nat>, l: Linear): Outcome {
    if !e.Mul? then Done(l)
    else
      var bracketed := outer.None? && (e.left.Brack? || e.right.Brack?);
      var factor := if bracketed && e.left.Int? then Some(e.left.value)
                    else if bracketed && e.right.Int? then Some(e.right.value) else outer;
      var term := if bracketed && e.left.Int? then InBrackets(e.right)
                  else if bracketed && e.right.Int? then InBrackets(e.left) else e;
      match ReadSum(term, l)
      case None => Stops
      case Some(l1) =>
        Done(if factor.Some? then l1.(interval := Scale(l1.interval, factor.value)) else l1)
  }

  function InBrackets(e: Expr): Expr {
    if e.Brack? then e.inner else e
  }

  /** A sum under an outer factor, or without one. */
  function ReadTop(e: Expr, outer: Option<nat>, l: Linear): Outcome {
    if !e.Add? then Stops
    else
      var k := if outer.Some? then outer.value else 1;
      if IsConst(e.left) then ReadProduct(e.right, outer, l.(offset := Eval(e.left, []) * k))
      else if IsConst(e.right) then ReadProduct(e.left, outer, l.(offset := Eval(e.right, []) * k))
      else
        match ReadSum(e, l.(next := 0))
        case None => Stops
        case Some(l1) =>
          Done(if outer.Some?
               then l1.(offset := l1.offset * k, interval := Scale(l1.interval, k)) else l1)
  }

  function ReadOffset(e: Expr, l: Linear): Outcome
    requires |l.interval| == MAX_DEPTH
  {
    if e.Undefined? then NoOffset
    else if IsConst(e) then Done(l.(offset := Eval(e, [])))
    else if e.Mul? && e.right.Int? then
      if e.left.Brack? then ReadTop(e.left.inner, Some(e.right.value), l)
      else Done(l.(offset := 0, interval := l.interval[0 := e.right.value]))
    else if e.Mul? && e.left.Int? then
      if e.right.Brack? then ReadTop(e.right.inner, Some(e.left.value), l)
      else Done(l.(offset := 0, interval := l.interval[0 := e.left.value]))
    else ReadTop(InBrackets(e), None, l)
  }

  // ----- the shapes that are read exactly -----

  predicate Product(e: Expr, j: nat) {
    e.Mul? && ((e.left.Int? && e.right == Index(j)) || (e.left == Index(j) && e.right.Int?))
  }

  predicate Term(e: Expr, j: nat) {
    Product(e, j) || e == Index(j)
  }

  /** A left-nested sum of terms for levels 0 to n - 1, with a literal in front if `led`;
      without one the first term is a product. */
  predicate Sum(e: Expr, n: nat, led: bool) {
    if n == 0 then false
    else if n == 1 then if led then e.Add? && e.left.Int? && Term(e.right, 0) else Product(e, 0)
    else e.Add? && Sum(e.left, n - 1, led) && Term(e.right, n - 1)
  }

  /** A literal times a bracketed sum. */
  predicate Scaled(e: Expr, n: nat, led: bool) {
    e.Mul? && ((e.left.Int? && e.right.Brack? && Sum(e.right.inner, n, led)) ||
               (e.right.Int? && e.left.Brack? && Sum(e.left.inner, n, led)))
  }

  /** A constant and a single product, in either order. */
  predicate Affine(e: Expr) {
    e.Add? && ((IsConst(e.left) && Product(e.right, 0)) || (Product(e.left, 0) && IsConst(e.right)))
  }

  /** A constant and a scaled sum without a constant of its own, in either order. */
  predicate AffineSum(e: Expr, n: nat) {
    e.Add? && ((IsConst(e.left) && Scaled(e.right, n, false)) || (Scaled(e.left, n, false) && IsConst(e.right)))
  }

  /** A sum, bracketed or not. */
  predicate Plain(e: Expr, n: nat) {
    || (n == 1 && Affine(e))
    || (2 <= n && (Sum(e, n, true) || Sum(e, n, false)))
    || AffineSum(e, n)
  }

  /** All of them, for n levels. */
  predicate Accepted(e: Expr, n: nat) {
    || (n == 0 && IsConst(e))
    || (n == 1 && Product(e, 0))
    || Plain(InBrackets(e), n)
    || (n == 1 && e.Mul? && ((e.right.Int? && e.left.Brack? && Affine(e.left.inner)) ||
                             (e.left.Int? && e.right.Brack? && Affine(e.right.inner))))
    || (2 <= n && (Scaled(e, n, true) || Scaled(e, n, false)))
  }

  // ----- linear forms -----

  /** The strides read so far are not negative, and the rest is still 0. */
  predicate Clean(l: Linear) {
    && |l.interval| == MAX_DEPTH && l.next <= MAX_DEPTH
    && (forall j | 0 <= j < MAX_DEPTH :: l.interval[j] >= 0)
    && (forall j | l.next <= j < MAX_DEPTH :: l.interval[j] == 0)
  }

  function At(idx: seq<int>, j: nat): int {
    if j < |idx| then idx[j] else 0
  }

  lemma {:induction false} DotUpdate(s: seq<int>, j: nat, k: int, idx: seq<int>)
    requires j < |s| && s[j] == 0
    ensures Dot(s[j := k], idx) == Dot(s, idx) + k * At(idx, j)
  {
    if idx != [] {
      if j == 0 {
        assert s[j := k][1..] == s[1..];
      } else {
        assert s[j := k][1..] == s[1..][j - 1 := k];
        DotUpdate(s[1..], j - 1, k, idx[1..]);
        assert At(idx[1..], j - 1) == At(idx, j);
      }
    }
  }

  lemma {:induction false} DotScale(s: seq<int>, k: int, idx: seq<int>)
    requires forall j | 0 <= j < |s| :: s[j] >= 0
    ensures Dot(Scale(s, k), idx) == k * Dot(s, idx)
  {
    if s != [] && idx != [] {
      DotScale(s[1..], k, idx[1..]);
      var head := if s[0] > 0 then s[0] * k else s[0];
      assert Scale(s, k)[0] == head == s[0] * k && Scale(s, k)[1..] == Scale(s[1..], k);
      assert s[0] * k * idx[0] == k * (s[0] * idx[0]);
      assert k * (s[0] * idx[0]) + k * Dot(s[1..], idx[1..]) == k * (s[0] * idx[0] + Dot(s[1..], idx[1..]));
    }
  }

  lemma {:induction false} DotZero(s: seq<int>, idx: seq<int>)
    requires forall j | 0 <= j < |s| :: s[j] == 0
    ensures Dot(s, idx) == 0
  {
    if s != [] && idx != [] {
      DotZero(s[1..], idx[1..]);
    }
  }

  lemma {:induction false} ConstEval(e: Expr, idx: seq<int>)
    requires IsConst(e)
    ensures Eval(e, idx) == Eval(e, []) >= 0
  {
    match e
    case Int(_) =>
    case Add(l, r) => ConstEval(l, idx); ConstEval(r, idx);
    case Mul(l, r) => ConstEval(l, idx); ConstEval(r, idx);
    case Brack(i) => ConstEval(i, idx);
    case _ =>
  }

  /** The stride that a term pushes. */
  function Stride(e: Expr): nat {
    if e.Mul? && Factor(e).Some? then Factor(e).value else 1
  }

  lemma TermEval(e: Expr, j: nat, idx: seq<int>)
    requires Term(e, j)
    ensures Eval(e, idx) == Stride(e) * At(idx, j) && !IsConst(e)
  {
  }

  /** What the next term adds. */
  lemma PushExact(t: Expr, j: nat, l: Linear, idx: seq<int>)
    requires Term(t, j) && Clean(l) && l.next == j < MAX_DEPTH
    ensures t.Mul? ==> Factor(t) == Some(Stride(t))
    ensures var r := Push(l, Stride(t));
            && r.Some? && Clean(r.value) && r.value.next == j + 1 && r.value.offset == l.offset
            && Dot(r.value.interval, idx) == Dot(l.interval, idx) + Eval(t, idx)
  {
    TermEval(t, j, idx);
    DotUpdate(l.interval, j, Stride(t), idx);
  }

  /** Reading a sum takes it over term by term, from the form of its constant. */
  lemma {:induction false} ReadSumExact(e: Expr, n: nat, led: bool, l: Linear, idx: seq<int>)
    requires Sum(e, n, led) && n <= MAX_DEPTH && Clean(l) && l.next == 0
    ensures ReadSum(e, l).Some?
    ensures var r := ReadSum(e, l).value;
            && Clean(r) && r.next == n
            && (!led ==> r.offset == l.offset && Eval(e, idx) == Dot(r.interval, idx))
            && (led ==> Eval(e, idx) == Value(r, idx))
    ensures n >= 2 ==> e.Add? && !IsConst(e.left) && !IsConst(e.right)
    decreases n
  {
    if n == 1 {
      DotZero(l.interval, idx);
      var t, l0 := if led then e.right else e, if led then l.(offset := e.left.value) else l;
      assert Clean(l0);
      PushExact(t, 0, l0, idx);
    } else {
      SumNotConst(e.left, n - 1, led);
      TermEval(e.right, n - 1, idx);
      hide Clean, Dot, Push, Stride, Factor;
      ReadSumExact(e.left, n - 1, led, l, idx);
      assert !e.left.Int?;
      PushExact(e.right, n - 1, ReadSum(e.left, l).value, idx);
    }
  }

  /** A sum is read without an error if and only if it has at most 8 levels. */
  lemma {:induction false} SumFitsIff(e: Expr, n: nat, led: bool, l: Linear)
    requires Sum(e, n, led) && Clean(l) && l.next == 0
    ensures ReadSum(e, l).Some? <==> n <= 8
    decreases n
  {
    if n <= MAX_DEPTH {
      ReadSumExact(e, n, led, l, []);
    } else {
      hide Clean;
      SumFitsIff(e.left, n - 1, led, l);
      SumNotConst(e.left, n - 1, led);
      if n - 1 <= MAX_DEPTH {
        ReadSumExact(e.left, n - 1, led, l, []);
        CleanLength(ReadSum(e.left, l).value);
      }
    }
  }

  lemma CleanLength(l: Linear)
    requires Clean(l)
    ensures |l.interval| == MAX_DEPTH
  {
  }

  lemma SumNotConst(e: Expr, n: nat, led: bool)
    requires Sum(e, n, led)
    ensures !IsConst(e)
  {
    if n == 1 {
      TermEval(if led then e.right else e, 0, []);
    } else {
      TermEval(e.right, n - 1, []);
    }
  }

  lemma ReadsBracketed(e: Expr, idx: seq<int>)
    requires InBrackets(e).Add? && !IsConst(InBrackets(e))
    ensures ReadOffset(e, ZERO) == ReadTop(InBrackets(e), None, ZERO)
    ensures Eval(e, idx) == Eval(InBrackets(e), idx)
  {
  }

  /** A constant, or one product. */
  lemma LeafExact(e: Expr, n: nat, idx: seq<int>)
    requires (n == 0 && IsConst(e)) || (n == 1 && Product(e, 0))
    ensures ReadOffset(e, ZERO).Done?
    ensures Value(ReadOffset(e, ZERO).linear, idx) == Eval(e, idx)
  {
    DotZero(ZERO.interval, idx);
    if IsConst(e) {
      ConstEval(e, idx);
    } else {
      DotUpdate(ZERO.interval, 0, Stride(e), idx);
    }
  }

  lemma PlainExact(e: Expr, n: nat, idx: seq<int>)
    requires Plain(InBrackets(e), n) && n <= MAX_DEPTH
    ensures ReadOffset(e, ZERO).Done?
    ensures Value(ReadOffset(e, ZERO).linear, idx) == Eval(e, idx)
  {
    var i := InBrackets(e);
    assert i.Add? && !IsConst(i) && ReadTop(i, None, ZERO).Done? && Value(ReadTop(i, None, ZERO).linear, idx) == Eval(i, idx) by {
      hide ReadTop, Eval, Value, ReadSum;
      if n == 1 && Affine(i) {
        ProductNotConst(i.left);
        ProductNotConst(i.right);
        AffineExact(i, None, idx);
      } else if AffineSum(i, n) {
        AffineSumExact(i, n, idx);
      } else {
        SumExact(i, n, Sum(i, n, true), None, idx);
        SumNotConst(i, n, Sum(i, n, true));
      }
    }
    hide *;
    ReadsBracketed(e, idx);
  }

  /** A literal times a bracketed sum. */
  lemma OuterExact(e: Expr, n: nat, idx: seq<int>)
    requires e.Mul? && n <= MAX_DEPTH
    requires (e.right.Int? && e.left.Brack?) || (e.left.Int? && e.right.Brack?)
    requires var i := if e.right.Int? then e.left.inner else e.right.inner;
             (n == 1 && Affine(i)) || (2 <= n && (Sum(i, n, true) || Sum(i, n, false)))
    ensures ReadOffset(e, ZERO).Done?
    ensures Value(ReadOffset(e, ZERO).linear, idx) == Eval(e, idx)
  {
    var k, i := Factor(e), if e.right.Int? then e.left.inner else e.right.inner;
    assert !IsConst(i) && ReadTop(i, k, ZERO).Done? && Value(ReadTop(i, k, ZERO).linear, idx) == Times(k, Eval(i, idx)) by {
      hide ReadTop, Eval, Value, ReadSum, Times;
      if n == 1 {
        ProductNotConst(i.left);
        ProductNotConst(i.right);
        AffineExact(i, k, idx);
      } else {
        SumExact(i, n, Sum(i, n, true), k, idx);
        SumNotConst(i, n, Sum(i, n, true));
      }
    }
    assert Eval(e, idx) == Times(k, Eval(i, idx)) by {
      var f, b := if e.right.Int? then e.right else e.left, if e.right.Int? then e.left else e.right;
      assert Eval(f, idx) == k.value && Eval(b, idx) == Eval(i, idx);
    }
    assert !IsConst(e) by {
      assert !IsConst(if e.right.Int? then e.left else e.right);
    }
    hide ReadTop, Value, Affine, Sum, Eval, IsConst;
    assert ReadOffset(e, ZERO) == ReadTop(i, k, ZERO);
  }

  /** Exactness: on every accepted expression with at most MAX_DEPTH levels the base and strides
      that are read off give, for every index vector, the value of the expression. */
  lemma OffsetIsExact(e: Expr, n: nat, idx: seq<int>)
    requires Accepted(e, n) && n <= MAX_DEPTH
    ensures ReadOffset(e, ZERO).Done?
    ensures Value(ReadOffset(e, ZERO).linear, idx) == Eval(e, idx)
  {
    hide ReadOffset, Value, Eval, Affine, Sum, IsConst, Product;
    if (n == 0 && IsConst(e)) || (n == 1 && Product(e, 0)) {
      LeafExact(e, n, idx);
    } else if Plain(InBrackets(e), n) {
      PlainExact(e, n, idx);
    } else {
      OuterExact(e, n, idx);
    }
  }

  function Times(k: Option<nat>, x: int): int {
    if k.Some? then k.value * x else x
  }

  lemma ReadTerm(t: Expr, outer: Option<nat>, c: nat, idx: seq<int>)
    requires Product(t, 0)
    ensures var r := ReadProduct(t, outer, ZERO.(offset := c));
            r.Done? && Value(r.linear, idx) == c + Times(outer, Eval(t, idx))
  {
    var strides := ZERO.interval[0 := Stride(t)];
    TermEval(t, 0, idx);
    DotZero(ZERO.interval, idx);
    DotUpdate(ZERO.interval, 0, Stride(t), idx);
    if outer.Some? {
      DotScale(strides, outer.value, idx);
    }
  }

  lemma AffineExact(e: Expr, outer: Option<nat>, idx: seq<int>)
    requires Affine(e)
    ensures ReadTop(e, outer, ZERO).Done?
    ensures Value(ReadTop(e, outer, ZERO).linear, idx) == Times(outer, Eval(e, idx))
  {
    var c, t := if IsConst(e.left) then e.left else e.right, if IsConst(e.left) then e.right else e.left;
    ProductNotConst(e.left);
    ConstEval(c, idx);
    TimesAdds(outer, Eval(c, []), Eval(t, idx));
    assert Eval(e, idx) == Eval(c, []) + Eval(t, idx);
    hide Eval, IsConst, ReadProduct, Value, Product;
    ReadTerm(t, outer, Times(outer, Eval(c, [])), idx);
  }

  lemma TimesAdds(k: Option<nat>, x: int, y: int)
    ensures Times(k, x + y) == Times(k, x) + Times(k, y)
    ensures Times(k, x) == x * if k.Some? then k.value else 1
  {
  }

  lemma ProductNotConst(e: Expr)
    ensures Product(e, 0) ==> !IsConst(e)
  {
    if Product(e, 0) {
      TermEval(e, 0, []);
    }
  }

  lemma SumExact(e: Expr, n: nat, led: bool, outer: Option<nat>, idx: seq<int>)
    requires 2 <= n <= MAX_DEPTH && Sum(e, n, led)
    ensures ReadTop(e, outer, ZERO).Done?
    ensures Value(ReadTop(e, outer, ZERO).linear, idx) == Times(outer, Eval(e, idx))
  {
    ReadSumExact(e, n, led, ZERO, idx);
    if outer.Some? {
      var r := ReadSum(e, ZERO).value;
      DotScale(r.interval, outer.value, idx);
      assert outer.value * (r.offset + Dot(r.interval, idx)) ==
             outer.value * r.offset + outer.value * Dot(r.interval, idx);
    }
  }

  /** The sum that is scaled. */
  function ScaledSum(t: Expr): Expr
    requires t.Mul? && (t.left.Brack? || t.right.Brack?)
  {
    if t.left.Int? && t.right.Brack? then t.right.inner else if t.left.Brack? then t.left.inner else t.right.inner
  }

  lemma ScaledParts(t: Expr, n: nat, l: Linear, idx: seq<int>)
    requires Scaled(t, n, false)
    ensures t.Mul? && (t.left.Brack? || t.right.Brack?) && Factor(t).Some?
    ensures var s, k := ScaledSum(t), Factor(t).value;
            && Sum(s, n, false) && (IsConst(t) ==> IsConst(s)) && Eval(t, idx) == k * Eval(s, idx)
            && ReadProduct(t, None, l) == (if ReadSum(s, l).None? then Stops
                                           else var r := ReadSum(s, l).value; Done(r.(interval := Scale(r.interval, k))))
  {
    hide Sum, Scale, ReadSum;
    assert IsConst(t) ==> IsConst(t.left) && IsConst(t.right);
  }

  lemma ReadScaled(t: Expr, n: nat, c: nat, idx: seq<int>)
    requires n <= MAX_DEPTH && Scaled(t, n, false)
    ensures !IsConst(t)
    ensures var r := ReadProduct(t, None, ZERO.(offset := c));
            r.Done? && Value(r.linear, idx) == c + Eval(t, idx)
  {
    var l := ZERO.(offset := c);
    assert Clean(l);
    ScaledParts(t, n, l, idx);
    var s := ScaledSum(t);
    hide Sum, Scale, ReadSum, ReadProduct, IsConst, Eval, Scaled, ScaledSum, Dot;
    SumNotConst(s, n, false);
    ReadSumExact(s, n, false, l, idx);
    DotScale(ReadSum(s, l).value.interval, Factor(t).value, idx);
  }

  lemma AffineSumExact(e: Expr, n: nat, idx: seq<int>)
    requires n <= MAX_DEPTH && AffineSum(e, n)
    ensures !IsConst(e)
    ensures ReadTop(e, None, ZERO).Done?
    ensures Value(ReadTop(e, None, ZERO).linear, idx) == Eval(e, idx)
  {
    if IsConst(e.left) && Scaled(e.right, n, false) {
      ConstEval(e.left, idx);
      ReadScaled(e.right, n, Eval(e.left, []), idx);
    } else {
      ConstEval(e.right, idx);
      ReadScaled(e.left, n, Eval(e.right, []), idx);
    }
  }

  /** Outside of these shapes strides can get lost: beside a constant only a product is read, so a
      sum of a constant and anything else is taken for its constant, which is right for an index
      vector if and only if the other side is 0 there. */
  lemma LostStrides(e: Expr, idx: seq<int>)
    requires e.Add? && (IsConst(e.left) <==> !IsConst(e.right))
    requires !(if IsConst(e.left) then e.right else e.left).Mul?
    ensures var c, t := if IsConst(e.left) then e.left else e.right, if IsConst(e.left) then e.right else e.left;
            && ReadOffset(e, ZERO) == Done(ZERO.(offset := Eval(c, [])))
            && (Value(ReadOffset(e, ZERO).linear, idx) == Eval(e, idx) <==> Eval(t, idx) == 0)
  {
    var c, t := if IsConst(e.left) then e.left else e.right, if IsConst(e.left) then e.right else e.left;
    var l := ZERO.(offset := Eval(c, []));
    assert ReadProduct(t, None, l) == Done(l);
    assert ReadOffset(e, ZERO) == ReadTop(e, None, ZERO) == Done(l) by {
      assert Eval(c, []) * 1 == Eval(c, []);
    }
    ConstEval(c, idx);
    DotZero(l.interval, idx);
  }

  /** For instance `$i` is lost from `c + $i`, and `k * $i + $j` from `k * $i + $j + c`. */
  lemma LostStridesExamples(c: nat, k: nat)
    ensures var e := Add(Int(c), Index(0));
            ReadOffset(e, ZERO) == Done(ZERO.(offset := c)) && Eval(e, [1]) == c + 1
    ensures var e := Add(Add(Mul(Int(k), Index(0)), Index(1)), Int(c));
            ReadOffset(e, ZERO) == Done(ZERO.(offset := c)) && Eval(e, [0, 1]) == c + 1
  {
    var e, f := Add(Int(c), Index(0)), Add(Add(Mul(Int(k), Index(0)), Index(1)), Int(c));
    assert !IsConst(f.left) by { assert !IsConst(f.left.right); }
    LostStrides(e, [1]);
    LostStrides(f, [0, 1]);
    assert Eval(f.left.left, [0, 1]) == k * 0;
    assert Eval(f, [0, 1]) == Eval(f.left.left, [0, 1]) + Eval(Index(1), [0, 1]) + Eval(Int(c), [0, 1]);
  }

  // ----- the two passes over the record they fill -----

  /** The offset record of a register and the position of its next stride. */
  class Linearizer {
    var offset: int
    var interval: array<int>
    var myIndex: nat

    ghost function State(): Linear
      reads this, interval
    {
      Linear(offset, interval[..], myIndex)
    }

    constructor ()
      ensures State() == ZERO && fresh(interval)
    {
      offset, myIndex := 0, 0;
      interval := new int[MAX_DEPTH](_ => 0);
      new;
      assert interval[..] == ZERO.interval;
    }

    method Append(stride: int) returns (ok: bool)
      modifies this`myIndex, interval
      ensures ok == Push(old(State()), stride).Some?
      ensures ok ==> State() == Push(old(State()), stride).value
    {
      if myIndex >= interval.Length {
        return false;
      }
      interval[myIndex] := stride;
      myIndex := myIndex + 1;
      return true;
    }

    method GetOffsetInfo(e: Expr) returns (ok: bool)
      modifies this`offset, this`myIndex, interval
      ensures ok == ReadSum(e, old(State())).Some?
      ensures ok ==> State() == ReadSum(e, old(State())).value
    {
      match e
      case Add(left, right) =>
        if left.Int? {
          offset := left.value;
        } else {
          ok := GetOffsetInfo(left);
          if !ok { return false; }
        }
        if right.Mul? {
          ok := AppendFactor(right);
        } else if right.Index? {
          ok := Append(1);
        } else {
          ok := false;
        }
      case Mul(_, _) =>
        ok := AppendFactor(e);
      case _ =>
        ok := false;
    }

    method AppendFactor(e: Expr) returns (ok: bool)
      requires e.Mul?
      modifies this`myIndex, interval
      ensures ok == (Factor(e).Some? && Push(old(State()), Factor(e).value).Some?)
      ensures ok ==> State() == Push(old(State()), Factor(e).value).value
    {
      if e.left.Int? {
        ok := Append(e.left.value);
      } else if e.right.Int? {
        ok := Append(e.right.value);
      } else {
        ok := false;
      }
    }

    method ScaleStrides(k: int)
      modifies interval
      ensures State() == old(State()).(interval := Scale(old(interval[..]), k))
    {
      ghost var was := interval[..];
      var i := 0;
      while i < interval.Length
        invariant 0 <= i <= interval.Length
        invariant forall j | 0 <= j < i :: interval[j] == if was[j] > 0 then was[j] * k else was[j]
        invariant forall j | i <= j < interval.Length :: interval[j] == was[j]
      {
        if interval[i] > 0 {
          interval[i] := interval[i] * k;
        }
        i := i + 1;
      }
      ScaleAt(was, k);
      assert interval[..] == Scale(was, k);
    }

    method CheckMultiply(expr: Expr, outer: Option<nat>) returns (ok: bool)
      modifies this`offset, this`myIndex, interval
      ensures ok == ReadProduct(expr, outer, old(State())).Done?
      ensures ok ==> Done(State()) == ReadProduct(expr, outer, old(State()))
    {
      if !expr.Mul? {
        return true;
      }
      var e, factor := expr, outer;
      if outer.None? && (e.left.Brack? || e.right.Brack?) {
        if e.left.Int? {
          e, factor := e.right.inner, Some(e.left.value);
        } else if e.right.Int? {
          e, factor := e.left.inner, Some(e.right.value);
        }
      }
      ok := GetOffsetInfo(e);
      if ok && factor.Some? {
        ScaleStrides(factor.value);
      }
    }

    /** Done, or nothing to read, or the compiler has stopped: the same as ReadOffset. */
    method GetRegisterOffset(e: Expr) returns (r: Outcome)
      requires interval.Length == MAX_DEPTH
      modifies this`offset, this`myIndex, interval
      ensures r == ReadOffset(e, old(State()))
      ensures r.Done? ==> State() == r.linear
    {
      if e.Undefined? {
        return NoOffset;
      }
      if IsConst(e) {
        offset := Eval(e, []);
        return Done(Linear(offset, interval[..], myIndex));
      }
      var expr, factor := InBrackets(e), Option<nat>.None;
      if e.Mul? && (e.right.Int? || e.left.Int?) {
        var k, other := if e.right.Int? then e.right.value else e.left.value, if e.right.Int? then e.left else e.right;
        if !other.Brack? {
          offset := 0;
          interval[0] := k;
          return Done(Linear(offset, interval[..], myIndex));
        }
        expr, factor := other.inner, Some(k);
      }
      assert ReadOffset(e, old(State())) == ReadTop(expr, factor, old(State()));
      if !expr.Add? {
        return Stops;
      }
      var ok: bool;
      if IsConst(expr.left) {
        offset := Eval(expr.left, []) * (if factor.Some? then factor.value else 1);
        ok := CheckMultiply(expr.right, factor);
      } else if IsConst(expr.right) {
        offset := Eval(expr.right, []) * (if factor.Some? then factor.value else 1);
        ok := CheckMultiply(expr.left, factor);
      } else {
        myIndex := 0;
        ok := GetOffsetInfo(expr);
        if ok && factor.Some? {
          offset := offset * factor.value;
          ScaleStrides(factor.value);
        }
      }
      return if ok then Done(Linear(offset, interval[..], myIndex)) else Stops;
    }
  }

  lemma {:induction false} ScaleAt(s: seq<int>, k: int)
    ensures forall j | 0 <= j < |s| :: Scale(s, k)[j] == if s[j] > 0 then s[j] * k else s[j]
  {
    if s != [] {
      ScaleAt(s[1..], k);
    }
  }
}
