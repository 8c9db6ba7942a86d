/** The constant folder of the expression checker, on 64-bit integers. */
module ConstantFolding {
  import opened Common
  import opened BitSlices
  import Dml

  datatype UnOp = Negate | Plus | Not | Complement

  datatype BinOp = Add | Sub | Mul | Div | Mod | LeftShift | RightShift | Eq | Ne | Less | Greater | LessEq | GreaterEq |
    OrOr | AndAnd | BitOr | BitXor | BitAnd

  datatype Expr =
    | Int(value: int)
    | Var(id: nat)
    | Un(un: UnOp, arg: Expr)
    | Bin(op: BinOp, left: Expr, right: Expr)
    | Choice(test: Expr, thn: Expr, els: Expr)
    | Brack(inner: Expr)

  // ----- the integers of the host -----

  const WIDTH: nat := 64

  predicate InRange(x: int) {
    x < Pow2(WIDTH - 1) && 0 <= x + Pow2(WIDTH - 1)
  }

  function Checked(x: int): (r: Option<int>)
    ensures r.Some? ==> InRange(r.value)
  {
    if InRange(x) then Some(x) else None
  }

  /** The k low bits of a number. */
  function Bits(n: nat, k: nat): (w: Word)
    ensures |w| == k
  {
    if k == 0 then [] else [n % 2 == 1] + Bits(n / 2, k - 1)
  }

  /** Two's complement. */
  function ToWord(x: int): (w: Word)
    requires InRange(x)
    ensures |w| == WIDTH
  {
    Bits(if x < 0 then x + Pow2(WIDTH) else x, WIDTH)
  }

  function FromWord(w: Word): (x: int)
    requires |w| == WIDTH
    ensures InRange(x)
  {
    NumBound(w);
    if Num(w) < Pow2(WIDTH - 1) then Num(w) else Num(w) - Pow2(WIDTH)
  }

  function Xor(v: Word, w: Word): (r: Word)
    requires |v| == |w|
    ensures |r| == |w|
  {
    seq(|w|, i requires 0 <= i < |w| => v[i] != w[i])
  }

  function Truth(b: bool): int {
    if b then 1 else 0
  }

  function Quotient(x: int, y: int): int
    requires y != 0
  {
    if x >= 0 then (if y > 0 then x / y else -(x / -y)) else (if y > 0 then -(-x / y) else -x / -y)
  }

  /** An operator of C on two values; None is undefined behaviour. */
  function Apply(op: BinOp, x: int, y: int): (r: Option<int>)
    requires InRange(x) && InRange(y)
    ensures r.Some? ==> InRange(r.value)
  {
    match op
    case Add => Checked(x + y)
    case Sub => Checked(x - y)
    case Mul => Checked(x * y)
    case Div => if y == 0 then None else Checked(Quotient(x, y))
    case Mod => if y == 0 || !InRange(Quotient(x, y)) then None else Checked(x - y * Quotient(x, y))
    case LeftShift => if 0 <= y < WIDTH && x >= 0 then Checked(x * Pow2(y)) else None
    case RightShift => if 0 <= y < WIDTH then Checked(x / Pow2(y)) else None
    case Eq => Checked(Truth(x == y))
    case Ne => Checked(Truth(x != y))
    case Less => Checked(Truth(x < y))
    case Greater => Checked(Truth(x > y))
    case LessEq => Checked(Truth(x <= y))
    case GreaterEq => Checked(Truth(x >= y))
    case OrOr => Checked(Truth(x != 0 || y != 0))
    case AndAnd => Checked(Truth(x != 0 && y != 0))
    case BitOr => Some(FromWord(Or(ToWord(x), ToWord(y))))
    case BitXor => Some(FromWord(Xor(ToWord(x), ToWord(y))))
    case BitAnd => Some(FromWord(And(ToWord(x), ToWord(y))))
  }

  function ApplyUn(op: UnOp, x: int): (r: Option<int>)
    requires InRange(x)
    ensures r.Some? ==> InRange(r.value)
  {
    match op
    case Negate => Checked(-x)
    case Plus => Some(x)
    case Not => Checked(Truth(x == 0))
    case Complement => Checked(-x - 1)
  }

  // ----- evaluation at run time -----

  type Env = nat -> int

  function Eval(e: Expr, env: Env): (r: Option<int>)
    ensures r.Some? ==> InRange(r.value)
  {
    match e
    case Int(v) => Checked(v)
    case Var(i) => Checked(env(i))
    case Un(op, a) =>
      var x := Eval(a, env);
      if x.None? then None else ApplyUn(op, x.value)
    case Bin(op, l, r) =>
      var x := Eval(l, env);
      if x.None? then None
      else if op.AndAnd? && x.value == 0 then Checked(0)
      else if op.OrOr? && x.value != 0 then Checked(1)
      else
        var y := Eval(r, env);
        if y.None? then None else Apply(op, x.value, y.value)
    case Choice(c, t, f) =>
      var x := Eval(c, env);
      if x.None? then None else if x.value != 0 then Eval(t, env) else Eval(f, env)
    case Brack(a) => Eval(a, env)
  }

  // ----- the folder -----

  /** Not constant, a constant, or undefined behaviour in the compiler itself. */
  datatype Folded = Dynamic | Constant(value: int) | Undefined

  function Known(r: Option<int>): Folded {
    if r.Some? then Constant(r.value) else Undefined
  }

  /** The operator that is applied to constants: & is computed as ^. */
  function FolderOp(op: BinOp): BinOp {
    if op.BitAnd? then BitXor else op
  }

  /** The folder, as it is or with & mended. */
  function FoldBy(e: Expr, mended: bool): (r: Folded)
    ensures r.Constant? ==> InRange(r.value)
  {
    match e
    case Int(v) => Known(Checked(v))
    case Var(_) => Dynamic
    case Un(op, a) =>
      var x := FoldBy(a, mended);
      if x.Constant? then Known(ApplyUn(op, x.value)) else x
    case Bin(op, l, r) =>
      var x, y := FoldBy(l, mended), FoldBy(r, mended);
      if x.Undefined? || y.Undefined? then Undefined
      else if x.Constant? && y.Constant? then Known(Apply(if mended then op else FolderOp(op), x.value, y.value))
      else Dynamic
    case Choice(c, t, f) =>
      var x, y, z := FoldBy(c, mended), FoldBy(t, mended), FoldBy(f, mended);
      if x.Undefined? || y.Undefined? || z.Undefined? then Undefined
      else if x.Dynamic? then Dynamic
      else if x.value != 0 then y else z
    case Brack(a) => FoldBy(a, mended)
  }

  function Fold(e: Expr): (r: Folded)
    ensures r.Constant? ==> InRange(r.value)
  {
    FoldBy(e, false)
  }

  /** Every & of two constants is that of two zeros. */
  predicate AndsVanish(e: Expr) {
    match e
    case Int(_) => true
    case Var(_) => true
    case Un(_, a) => AndsVanish(a)
    case Bin(op, l, r) =>
      AndsVanish(l) && AndsVanish(r) &&
      (op.BitAnd? && Fold(l).Constant? && Fold(r).Constant? ==> Fold(l).value == 0 && Fold(r).value == 0)
    case Choice(c, t, f) => AndsVanish(c) && AndsVanish(t) && AndsVanish(f)
    case Brack(a) => AndsVanish(a)
  }

  // ----- & and ^ -----

  lemma {:induction false} NumInjective(v: Word, w: Word)
    requires |v| == |w| && Num(v) == Num(w)
    ensures v == w
  {
    if v != [] {
      NumInjective(v[1..], w[1..]);
      assert v == [v[0]] + v[1..] && w == [w[0]] + w[1..];
    }
  }

  lemma {:induction false} BitsNumber(n: nat, k: nat)
    requires n < Pow2(k)
    ensures Num(Bits(n, k)) == n
  {
    if k > 0 {
      BitsNumber(n / 2, k - 1);
      assert Bits(n, k)[1..] == Bits(n / 2, k - 1);
    }
  }

  lemma ToWordZero(x: int)
    requires InRange(x)
    ensures (forall i | 0 <= i < WIDTH :: !ToWord(x)[i]) <==> x == 0
  {
    assert Pow2(WIDTH) == 2 * Pow2(WIDTH - 1);
    var n := if x < 0 then x + Pow2(WIDTH) else x;
    BitsNumber(n, WIDTH);
    var w := ToWord(x);
    if forall i | 0 <= i < WIDTH :: !w[i] {
      NumZeros(w);
    }
    if x == 0 {
      AllZero(w);
    }
  }

  lemma FromWordInjective(v: Word, w: Word)
    requires |v| == |w| == WIDTH && FromWord(v) == FromWord(w)
    ensures v == w
  {
    assert Pow2(WIDTH) == 2 * Pow2(WIDTH - 1);
    NumBound(v);
    NumBound(w);
    NumInjective(v, w);
  }

  lemma XorIsAndOfWords(v: Word, w: Word)
    requires |v| == |w|
    ensures Xor(v, w) == And(v, w) <==> forall i | 0 <= i < |v| :: !v[i] && !w[i]
  {
    if Xor(v, w) == And(v, w) {
      forall i | 0 <= i < |v|
        ensures !v[i] && !w[i]
      {
        assert Xor(v, w)[i] == And(v, w)[i];
      }
    }
  }

  lemma XorIsAndOfBits(x: int, y: int)
    requires InRange(x) && InRange(y)
    ensures FromWord(Xor(ToWord(x), ToWord(y))) == FromWord(And(ToWord(x), ToWord(y))) <==> x == 0 && y == 0
  {
    var v, w := ToWord(x), ToWord(y);
    ToWordZero(x);
    ToWordZero(y);
    XorIsAndOfWords(v, w);
    hide ToWord, InRange, And, Xor, FromWord, Pow2;
    if FromWord(Xor(v, w)) == FromWord(And(v, w)) {
      FromWordInjective(Xor(v, w), And(v, w));
    }
  }

  /** ^ and & of two values are the same if and only if both values are 0. */
  lemma XorIsAnd(x: int, y: int)
    requires InRange(x) && InRange(y)
    ensures Apply(BitXor, x, y) == Apply(BitAnd, x, y) <==> x == 0 && y == 0
  {
    hide InRange, ToWord, FromWord, Xor, And, Pow2, Quotient, Checked;
    XorIsAndOfBits(x, y);
  }

  lemma {:induction false} AllZero(w: Word)
    requires Num(w) == 0
    ensures forall i | 0 <= i < |w| :: !w[i]
  {
    if w != [] {
      AllZero(w[1..]);
      assert w == [w[0]] + w[1..];
    }
  }

  // ----- soundness -----

  /** What is folded to a constant has this value at run time whatever the variables are, in trees
      whose constant ands vanish. */
  lemma FoldIsSound(e: Expr, env: Env)
    requires AndsVanish(e) && Fold(e).Constant?
    ensures Eval(e, env) == Some(Fold(e).value)
  {
    MendedIsFold(e);
    MendedIsSound(e, env);
  }

  lemma {:induction false} MendedIsFold(e: Expr)
    requires AndsVanish(e)
    ensures FoldBy(e, true) == Fold(e)
  {
    match e
    case Un(_, a) => MendedIsFold(a);
    case Bin(op, l, r) =>
      MendedIsFold(l);
      MendedIsFold(r);
      if Fold(l).Constant? && Fold(r).Constant? {
        XorIsAnd(Fold(l).value, Fold(r).value);
        assert Apply(FolderOp(op), Fold(l).value, Fold(r).value) == Apply(op, Fold(l).value, Fold(r).value);
      }
    case Choice(c, t, f) => MendedIsFold(c); MendedIsFold(t); MendedIsFold(f);
    case Brack(a) => MendedIsFold(a);
    case _ =>
  }

  /** With & mended every constant is right. */
  lemma {:induction false} MendedIsSound(e: Expr, env: Env)
    requires FoldBy(e, true).Constant?
    ensures Eval(e, env) == Some(FoldBy(e, true).value)
  {
    match e
    case Int(_) =>
    case Un(_, a) => MendedIsSound(a, env);
    case Bin(op, l, r) =>
      MendedIsSound(l, env);
      MendedIsSound(r, env);
    case Choice(c, t, f) =>
      MendedIsSound(c, env);
      if FoldBy(c, true).value != 0 {
        MendedIsSound(t, env);
      } else {
        MendedIsSound(f, env);
      }
    case Brack(a) => MendedIsSound(a, env);
    case _ =>
  }

  predicate WithoutChoice(e: Expr) {
    match e
    case Un(_, a) => WithoutChoice(a)
    case Bin(_, l, r) => WithoutChoice(l) && WithoutChoice(r)
    case Brack(a) => WithoutChoice(a)
    case Choice(_, _, _) => false
    case _ => true
  }

  /** Whether a tree without ?: is constant does not depend on how & is computed. */
  lemma {:induction false} SameConstants(e: Expr)
    requires WithoutChoice(e) && Fold(e).Constant?
    ensures !FoldBy(e, true).Dynamic?
  {
    match e
    case Un(_, a) => SameConstants(a);
    case Bin(_, l, r) => SameConstants(l); SameConstants(r);
    case Brack(a) => SameConstants(a);
    case _ =>
  }

  /** An & of two constants is folded right if and only if both are 0. */
  lemma AndFoldsRight(l: Expr, r: Expr, env: Env)
    requires AndsVanish(l) && AndsVanish(r) && Fold(l).Constant? && Fold(r).Constant?
    ensures var e := Bin(BitAnd, l, r);
            && Fold(e).Constant? && Eval(e, env).Some?
            && (Eval(e, env) == Some(Fold(e).value) <==> Fold(l).value == 0 && Fold(r).value == 0)
  {
    FoldIsSound(l, env);
    FoldIsSound(r, env);
    var x, y := Fold(l).value, Fold(r).value;
    XorIsAnd(x, y);
    assert Apply(BitXor, x, y).Some? && Apply(BitAnd, x, y).Some?;
    hide AndsVanish, InRange, Apply;
  }

  // ----- conditions of if chains -----

  /** The conditions for which is_explicit asks the folder: the node itself is one of these. */
  predicate Consulted(e: Expr) {
    e.Un? || (e.Bin? && (e.op.Eq? || e.op.Ne? || e.op.OrOr? || e.op.AndAnd?))
  }

  function FoldingOf(e: Expr): Dml.Folding {
    var r := Fold(e);
    if Consulted(e) && r.Constant? then (if r.value != 0 then Dml.IsTrue else Dml.IsFalse) else Dml.Unknown
  }

  /** The condition of an if statement, over the variables that a store holds. */
  function ConditionOf(e: Expr, vars: Dml.Store -> Env): Dml.Cond {
    Dml.Cond(st => var r := Eval(e, vars(st)); r.Some? && r.value != 0, FoldingOf(e))
  }

  /** The branch that is kept is the one that the condition selects. */
  predicate PrunedRight(e: Expr, vars: Dml.Store -> Env, st: Dml.Store) {
    var c := ConditionOf(e, vars);
    c.folded != Dml.Unknown ==> c.test(st) == c.folded.IsTrue?
  }

  /** Which constant conditions are pruned at all: those with ==, !=, a logical operator of two operands
      or any operator of one at the root, neither brackets around them nor other comparisons. */
  lemma PrunedShapes(op: BinOp, un: UnOp, l: Expr, r: Expr, c: Expr)
    requires Fold(l).Constant? && Fold(r).Constant? && Fold(c).Constant?
    ensures FoldingOf(Bin(op, l, r)) != Dml.Unknown <==>
            (op == Eq || op == Ne || op == OrOr || op == AndAnd) && Fold(Bin(op, l, r)).Constant?
    ensures FoldingOf(Un(un, l)) != Dml.Unknown <==> Fold(Un(un, l)).Constant?
    ensures FoldingOf(Brack(l)) == Dml.Unknown && FoldingOf(Choice(c, l, r)) == Dml.Unknown
    ensures l.Int? || l.Var? ==> FoldingOf(l) == Dml.Unknown
    ensures FoldingOf(Un(un, l)) == Dml.IsFalse <==> Fold(Un(un, l)) == Constant(0)
  {
    hide Fold;
  }

  /** What the lowering of if chains asks of folded conditions holds where constant ands vanish. */
  lemma ConditionsAreSound(e: Expr, vars: Dml.Store -> Env)
    requires AndsVanish(e)
    ensures forall st :: PrunedRight(e, vars, st)
  {
    if ConditionOf(e, vars).folded != Dml.Unknown {
      forall st
        ensures PrunedRight(e, vars, st)
      {
        FoldIsSound(e, vars(st));
      }
    }
  }

  /** A condition that is pruned is pruned right, in any state, if and only if folding it with & for &
      gives the same truth value. */
  lemma PrunedRightIff(e: Expr, vars: Dml.Store -> Env, st: Dml.Store)
    requires Consulted(e) && Fold(e).Constant? && FoldBy(e, true).Constant?
    ensures PrunedRight(e, vars, st) <==> (Fold(e).value == 0 <==> FoldBy(e, true).value == 0)
  {
    MendedIsSound(e, vars(st));
  }

  lemma XorZero(x: int, y: int)
    requires InRange(x) && InRange(y)
    ensures Apply(BitXor, x, y) == Some(0) <==> x == y
  {
    var v, w := ToWord(x), ToWord(y);
    hide ToWord, InRange, Pow2;
    XorOfEqual(v, w);
    if v == w {
      ToWordInjective(x, y);
    }
  }

  lemma XorOfEqual(v: Word, w: Word)
    requires |v| == |w| == WIDTH
    ensures FromWord(Xor(v, w)) == 0 <==> v == w
  {
    assert Pow2(WIDTH) == 2 * Pow2(WIDTH - 1);
    NumBound(Xor(v, w));
    if v == w {
      NumZeros(Xor(v, w));
    }
    if Num(Xor(v, w)) == 0 {
      XorVanishes(v, w);
    }
  }

  lemma XorVanishes(v: Word, w: Word)
    requires |v| == |w| && Num(Xor(v, w)) == 0
    ensures v == w
  {
    AllZero(Xor(v, w));
    forall i | 0 <= i < |v|
      ensures v[i] == w[i]
    {
      assert !Xor(v, w)[i];
    }
  }

  lemma ToWordInjective(x: int, y: int)
    requires InRange(x) && InRange(y) && ToWord(x) == ToWord(y)
    ensures x == y
  {
    assert Pow2(WIDTH) == 2 * Pow2(WIDTH - 1);
    var m, n := if x < 0 then x + Pow2(WIDTH) else x, if y < 0 then y + Pow2(WIDTH) else y;
    BitsNumber(m, WIDTH);
    BitsNumber(n, WIDTH);
    hide Pow2, Bits, Num;
    assert m == Num(ToWord(x)) && n == Num(ToWord(y));
  }

  /** The & and the ^ of two constants that a condition is made of. */
  lemma AndUnderCondition(l: Expr, r: Expr)
    requires AndsVanish(l) && AndsVanish(r) && Fold(l).Constant? && Fold(r).Constant?
    ensures var e, x, y := Brack(Bin(BitAnd, l, r)), Fold(l).value, Fold(r).value;
            && FoldBy(l, true) == Fold(l) && FoldBy(r, true) == Fold(r)
            && FoldBy(e, true) == Known(Apply(BitAnd, x, y)) && FoldBy(e, true).Constant?
            && Fold(e) == Known(Apply(BitXor, x, y)) && Fold(e).Constant?
            && (Fold(e) == FoldBy(e, true) <==> x == 0 && y == 0)
            && (Fold(e).value == 0 <==> x == y)
  {
    MendedIsFold(l);
    MendedIsFold(r);
    XorIsAnd(Fold(l).value, Fold(r).value);
    XorZero(Fold(l).value, Fold(r).value);
    hide InRange, ToWord, FromWord, Xor, And, Pow2, Quotient, Checked, AndsVanish;
    var e := Bin(BitAnd, l, r);
    assert forall mended: bool {:trigger FoldBy(e, mended)} :: FoldBy(Brack(e), mended) == FoldBy(e, mended);
    assert FoldBy(e, false) == Known(Apply(BitXor, Fold(l).value, Fold(r).value));
  }

  /** `!(l & r)` over constants is pruned right exactly if l & r is 0 just when l and r are equal. */
  lemma NotOfAnd(l: Expr, r: Expr, vars: Dml.Store -> Env, st: Dml.Store)
    requires AndsVanish(l) && AndsVanish(r) && Fold(l).Constant? && Fold(r).Constant?
    ensures var e, x, y := Un(Not, Brack(Bin(BitAnd, l, r))), Fold(l).value, Fold(r).value;
            && FoldingOf(e) == (if x == y then Dml.IsTrue else Dml.IsFalse)
            && (PrunedRight(e, vars, st) <==> (Apply(BitAnd, x, y) == Some(0) <==> x == y))
  {
    AndUnderCondition(l, r);
    SmallInRange();
    PrunedRightIff(Un(Not, Brack(Bin(BitAnd, l, r))), vars, st);
  }

  /** `(l & r) == c` and `(l & r) != c` are pruned right exactly if l and r are 0 or c is neither of
      what & and ^ give. */
  lemma AndCompared(op: BinOp, l: Expr, r: Expr, c: Expr, vars: Dml.Store -> Env, st: Dml.Store)
    requires (op.Eq? || op.Ne?) && AndsVanish(l) && AndsVanish(r) && AndsVanish(c)
    requires Fold(l).Constant? && Fold(r).Constant? && Fold(c).Constant?
    ensures var e, x, y, z := Bin(op, Brack(Bin(BitAnd, l, r)), c), Fold(l).value, Fold(r).value, Fold(c).value;
            && FoldingOf(e) != Dml.Unknown
            && (PrunedRight(e, vars, st) <==>
                (x == 0 && y == 0) || (Some(z) != Apply(BitAnd, x, y) && Some(z) != Apply(BitXor, x, y)))
  {
    AndUnderCondition(l, r);
    MendedIsFold(c);
    SmallInRange();
    PrunedRightIff(Bin(op, Brack(Bin(BitAnd, l, r)), c), vars, st);
  }

  /** `(l & r) && c` and `(l & r) || c`: the second operand decides, or l & r is 0 just when l and r are equal. */
  lemma AndInLogic(op: BinOp, l: Expr, r: Expr, c: Expr, vars: Dml.Store -> Env, st: Dml.Store)
    requires (op.AndAnd? || op.OrOr?) && AndsVanish(l) && AndsVanish(r) && AndsVanish(c)
    requires Fold(l).Constant? && Fold(r).Constant? && Fold(c).Constant?
    ensures var e, x, y, z := Bin(op, Brack(Bin(BitAnd, l, r)), c), Fold(l).value, Fold(r).value, Fold(c).value;
            && FoldingOf(e) != Dml.Unknown
            && (PrunedRight(e, vars, st) <==>
                (if op.AndAnd? then z == 0 else z != 0) || (Apply(BitAnd, x, y) == Some(0) <==> x == y))
  {
    AndUnderCondition(l, r);
    MendedIsFold(c);
    SmallInRange();
    PrunedRightIff(Bin(op, Brack(Bin(BitAnd, l, r)), c), vars, st);
  }

  lemma {:induction false} NoBits(k: nat)
    ensures forall i | 0 <= i < k :: !Bits(0, k)[i]
  {
    if k > 0 {
      NoBits(k - 1);
    }
  }

  lemma SmallInRange()
    ensures InRange(0) && InRange(1) && InRange(2)
  {
    PowAdd(2, WIDTH - 3);
  }

  lemma NoCommonBits(k: nat)
    requires k >= 2
    ensures Num(And(Bits(1, k), Bits(2, k))) == 0
  {
    NoBits(k - 1);
    NoBits(k - 2);
    assert Bits(1, k) == [true] + Bits(0, k - 1);
    assert Bits(2, k) == [false] + Bits(1, k - 1);
    assert Bits(1, k - 1) == [true] + Bits(0, k - 2);
    NumZeros(And(Bits(1, k), Bits(2, k)));
  }

  lemma OneAndTwo()
    ensures InRange(1) && InRange(2) && Apply(BitAnd, 1, 2) == Some(0)
  {
    hide Bits, InRange, And, Num, Pow2;
    SmallInRange();
    NoCommonBits(WIDTH);
  }

  /** The condition (1 & 2) == 0 is folded to false and !(1 & 2) is, and both are true. */
  lemma WrongBranch(vars: Dml.Store -> Env, st: Dml.Store)
    ensures var c := ConditionOf(Bin(Eq, Brack(Bin(BitAnd, Int(1), Int(2))), Int(0)), vars);
            c.folded == Dml.IsFalse && c.test(st)
    ensures var c := ConditionOf(Un(Not, Brack(Bin(BitAnd, Int(1), Int(2)))), vars);
            c.folded == Dml.IsFalse && c.test(st)
  {
    SmallInRange();
    OneAndTwo();
    var l, r, z := Int(1), Int(2), Int(0);
    assert Fold(l) == Constant(1) && Fold(r) == Constant(2) && Fold(z) == Constant(0);
    AndUnderCondition(l, r);
    NotOfAnd(l, r, vars, st);
    AndCompared(Eq, l, r, z, vars, st);
    hide InRange, Apply, AndsVanish;
    ComparedWithZero(l, r);
  }

  lemma ComparedWithZero(l: Expr, r: Expr)
    requires Fold(Brack(Bin(BitAnd, l, r))).Constant? && Fold(Brack(Bin(BitAnd, l, r))).value != 0
    ensures FoldingOf(Bin(Eq, Brack(Bin(BitAnd, l, r)), Int(0))) == Dml.IsFalse
  {
    SmallInRange();
    assert Fold(Int(0)) == Constant(0);
  }
}
