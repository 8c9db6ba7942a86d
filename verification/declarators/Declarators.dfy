/** C declarators: derivations pushed while the tree is read, then folded into a type. */
module Declarators {
  import opened Common

  datatype Qual = Qual(isConst: bool, vect: bool)

  const PLAIN := Qual(false, false)

  /** `sig` stands for the parameters of a function. */
  datatype Type =
    | Simple(name: string, qual: Qual)
    | Pointer(to: Type, qual: Qual)
    | Array(elem: Type, len: int, qual: Qual)
    | Function(ret: Type, sig: nat, qual: Qual)

  /** A declarator, or qualifiers in front of one; Abstract is the missing name. */
  datatype Decl =
    | Name(id: string)
    | Abstract
    | Paren(inner: Decl)
    | Const(inner: Decl)
    | Vect(inner: Decl)
    | Star(inner: Decl)
    | Arr(inner: Decl, len: int)
    | Fun(inner: Decl, sig: nat)

  // ----- the reading of section 6.7.6 of ISO/IEC 9899:2011 -----

  /** Adds qualifiers to a type. */
  function Qualified(t: Type, q: Qual): Type {
    t.(qual := Qual(t.qual.isConst || q.isConst, t.qual.vect || q.vect))
  }

  /** The type of the name that `d` declares when what `d` stands for has type t; None where an array
      of functions, or a function that returns an array or a function, would arise. */
  function Meaning(d: Decl, t: Type): Option<Type> {
    match d
    case Name(_) => Some(t)
    case Abstract => Some(t)
    case Paren(i) => Meaning(i, t)
    case Const(i) => Meaning(i, Qualified(t, Qual(true, false)))
    case Vect(i) => Meaning(i, Qualified(t, Qual(false, true)))
    case Star(i) => Meaning(i, Pointer(t, PLAIN))
    case Arr(i, n) => if t.Function? then None else Meaning(i, Array(t, n, PLAIN))
    case Fun(i, sig) => if t.Function? || t.Array? then None else Meaning(i, Function(t, sig, PLAIN))
  }

  /** Declarators of the standard: qualifiers follow a star (or stand in front of everything, as
      specifiers). */
  predicate Declarator(d: Decl)
    decreases d, 0
  {
    match d
    case Star(i) => Pointee(i)
    case Name(_) => true
    case Abstract => true
    case Paren(i) => Declarator(i)
    case Arr(i, _) => Direct(i)
    case Fun(i, _) => Direct(i)
    case _ => false
  }

  predicate Direct(d: Decl)
    decreases d, 1
  {
    !d.Star? && Declarator(d)
  }

  /** Qualifiers and a declarator. */
  predicate Pointee(d: Decl)
    decreases d, 1
  {
    match d
    case Const(i) => Pointee(i)
    case Vect(i) => Pointee(i)
    case _ => Declarator(d)
  }

  // ----- the reading of the compiler -----

  datatype Drv = PointerTo(qual: Qual) | ArrayOf(len: int) | FunctionReturn(sig: nat)

  /** What reading a declarator changes: the derivations, the current qualifiers and the name. */
  datatype State = State(drv: seq<Drv>, qual: Qual, name: Option<string>)

  /** A parameter list without anything in front of it is taken for brackets. */
  function Read(d: Decl, st: State): State {
    match d
    case Name(id) => st.(name := Some(id))
    case Abstract => st
    case Paren(i) => Read(i, st)
    case Const(i) => Read(i, st.(qual := st.qual.(isConst := true)))
    case Vect(i) => Read(i, st.(qual := st.qual.(vect := true)))
    case Star(i) =>
      var t := Read(i, st.(qual := PLAIN));
      t.(drv := [PointerTo(t.qual)] + t.drv, qual := st.qual)
    case Arr(i, n) =>
      var t := Read(i, st);
      t.(drv := [ArrayOf(n)] + t.drv)
    case Fun(i, sig) =>
      if i.Abstract? then st
      else
        var t := Read(i, st);
        t.(drv := [FunctionReturn(sig)] + t.drv)
  }

  /** Folds the derivations from the head; the array test looks at the base type, not at what the
      array is of. */
  function Derive(base: Type, t: Type, drv: seq<Drv>): Option<Type>
    decreases |drv|
  {
    if drv == [] then Some(t)
    else match drv[0]
      case PointerTo(q) => Derive(base, Pointer(t, q), drv[1..])
      case ArrayOf(n) => if base.Function? then None else Derive(base, Array(t, n, PLAIN), drv[1..])
      case FunctionReturn(sig) => if t.Array? || t.Function? then None else Derive(base, Function(t, sig, PLAIN), drv[1..])
  }

  /** A declaration: base type and declarator. */
  function Declare(d: Decl, base: Type): Option<Type> {
    var st := Read(d, State([], base.qual, None));
    Derive(base.(qual := st.qual), base.(qual := st.qual), st.drv)
  }

  // ----- the derivations of a declarator -----

  function Flags(d: Decl): Qual {
    match d
    case Const(i) => Flags(i).(isConst := true)
    case Vect(i) => Flags(i).(vect := true)
    case _ => PLAIN
  }

  /** A parameter list has nothing in front of it. */
  predicate Nameless(d: Decl) {
    match d
    case Name(_) => false
    case Abstract => false
    case Fun(i, _) => i.Abstract? || Nameless(i)
    case _ => Nameless(d.inner)
  }

  /** The derivations that are pushed: all but that of such a parameter list. */
  function Pushed(d: Decl): seq<Drv> {
    match d
    case Paren(i) => Pushed(i)
    case Const(i) => Pushed(i)
    case Vect(i) => Pushed(i)
    case Star(i) => [PointerTo(Flags(i))] + Pushed(i)
    case Arr(i, n) => [ArrayOf(n)] + Pushed(i)
    case Fun(i, sig) => if i.Abstract? then [] else [FunctionReturn(sig)] + Pushed(i)
    case _ => []
  }

  /** It is the last of all. */
  lemma {:induction false} NamelessIsLast(d: Decl) returns (sig: nat)
    ensures Drvs(d) == Pushed(d) + if Nameless(d) then [FunctionReturn(sig)] else []
  {
    sig := 0;
    match d
    case Name(_) =>
    case Abstract =>
    case Fun(i, n) => if i.Abstract? { sig := n; } else { sig := NamelessIsLast(i); }
    case _ => sig := NamelessIsLast(d.inner);
  }

  /** The derivations in the order in which they are applied. */
  function Drvs(d: Decl): seq<Drv> {
    match d
    case Paren(i) => Drvs(i)
    case Const(i) => Drvs(i)
    case Vect(i) => Drvs(i)
    case Star(i) => [PointerTo(Flags(i))] + Drvs(i)
    case Arr(i, n) => [ArrayOf(n)] + Drvs(i)
    case Fun(i, sig) => [FunctionReturn(sig)] + Drvs(i)
    case _ => []
  }

  function Ored(q: Qual, r: Qual): Qual {
    Qual(q.isConst || r.isConst, q.vect || r.vect)
  }

  lemma DeclaratorIsPointee(d: Decl)
    requires Declarator(d)
    ensures Pointee(d) && Flags(d) == PLAIN
  {
  }

  /** What stands inside of a direct declarator. */
  lemma InnerIsPointee(d: Decl)
    requires Pointee(d) && (d.Paren? || d.Arr? || d.Fun?)
    ensures Declarator(d) && Declarator(d.inner) && Pointee(d.inner) && Flags(d.inner) == PLAIN
  {
    assert Declarator(d);
    if !d.Paren? {
      assert Direct(d.inner);
    }
    DeclaratorIsPointee(d.inner);
  }

  lemma {:induction false} ReadIs(d: Decl, st: State)
    requires Pointee(d)
    ensures Read(d, st).drv == Pushed(d) + st.drv && Read(d, st).qual == Ored(st.qual, Flags(d))
    ensures Declarator(d) ==> Read(d, st).qual == st.qual
  {
    match d
    case Name(_) =>
    case Abstract =>
    case Paren(i) => InnerIsPointee(d); ReadIs(i, st);
    case Const(i) => ReadIs(i, st.(qual := st.qual.(isConst := true)));
    case Vect(i) => ReadIs(i, st.(qual := st.qual.(vect := true)));
    case Star(i) => ReadIs(i, st.(qual := PLAIN));
    case Arr(i, _) => InnerIsPointee(d); ReadIs(i, st);
    case Fun(i, _) => InnerIsPointee(d); ReadIs(i, st);
  }

  /** The fold with the tests of the standard. */
  function Legal(t: Type, drv: seq<Drv>): Option<Type>
    decreases |drv|
  {
    if drv == [] then Some(t)
    else match drv[0]
      case PointerTo(q) => Legal(Pointer(t, q), drv[1..])
      case ArrayOf(n) => if t.Function? then None else Legal(Array(t, n, PLAIN), drv[1..])
      case FunctionReturn(sig) => if t.Array? || t.Function? then None else Legal(Function(t, sig, PLAIN), drv[1..])
  }

  lemma {:induction false} MeaningIsLegal(d: Decl, t: Type)
    requires Pointee(d)
    ensures Meaning(d, t) == Legal(Qualified(t, Flags(d)), Drvs(d))
    decreases d
  {
    match d
    case Name(_) =>
    case Abstract =>
    case Paren(i) => InnerIsPointee(d); MeaningIsLegal(i, t);
    case Const(i) => MeaningIsLegal(i, Qualified(t, Qual(true, false)));
    case Vect(i) => MeaningIsLegal(i, Qualified(t, Qual(false, true)));
    case Star(i) =>
      MeaningIsLegal(i, Pointer(t, PLAIN));
      assert Drvs(d)[1..] == Drvs(i);
    case Arr(i, n) =>
      InnerIsPointee(d);
      MeaningIsLegal(i, Array(t, n, PLAIN));
      assert Drvs(d)[1..] == Drvs(i);
    case Fun(i, sig) =>
      InnerIsPointee(d);
      MeaningIsLegal(i, Function(t, sig, PLAIN));
      assert Drvs(d)[1..] == Drvs(i);
  }

  // ----- the two folds -----

  /** An array is derived at all. */
  predicate HasArray(drv: seq<Drv>) {
    exists i | 0 <= i < |drv| :: drv[i].ArrayOf?
  }

  /** An array is derived right after a function, or first from a function type. */
  predicate ArrayOfFunction(t: Type, drv: seq<Drv>) {
    (drv != [] && drv[0].ArrayOf? && t.Function?) ||
    exists i | 0 <= i < |drv| - 1 :: drv[i].FunctionReturn? && drv[i + 1].ArrayOf?
  }

  /** The fold of the compiler fails where that of the standard does, but for arrays: it lets an array
      of functions pass, and refuses every array when the base type is a function. */
  lemma {:induction false} FoldsCompared(base: Type, t: Type, drv: seq<Drv>)
    ensures Derive(base, t, drv).Some? && Legal(t, drv).Some? ==> Derive(base, t, drv) == Legal(t, drv)
    ensures Derive(base, t, drv).Some? ==> (Legal(t, drv).None? <==> ArrayOfFunction(t, drv))
    ensures Legal(t, drv).Some? ==> (Derive(base, t, drv).None? <==> base.Function? && HasArray(drv))
    decreases |drv|
  {
    if drv != [] {
      var rest := drv[1..];
      var u := match drv[0]
        case PointerTo(q) => Pointer(t, q)
        case ArrayOf(n) => Array(t, n, PLAIN)
        case FunctionReturn(sig) => Function(t, sig, PLAIN);
      FoldsCompared(base, u, rest);
      assert HasArray(drv) <==> drv[0].ArrayOf? || HasArray(rest) by {
        if i :| 0 <= i < |drv| && drv[i].ArrayOf? {
          assert i > 0 ==> rest[i - 1] == drv[i];
        }
        if i :| 0 <= i < |rest| && rest[i].ArrayOf? {
          assert drv[i + 1] == rest[i];
        }
      }
      assert ArrayOfFunction(t, drv) <==> (drv[0].ArrayOf? && t.Function?) || ArrayOfFunction(u, rest) by {
        if i :| 0 <= i < |drv| - 1 && drv[i].FunctionReturn? && drv[i + 1].ArrayOf? {
          assert i > 0 ==> rest[i - 1] == drv[i] && rest[i] == drv[i + 1];
        }
        if i :| 0 <= i < |rest| - 1 && rest[i].FunctionReturn? && rest[i + 1].ArrayOf? {
          assert drv[i + 1] == rest[i] && drv[i + 2] == rest[i + 1];
        }
      }
      hide HasArray, ArrayOfFunction;
    }
  }

  /** What a function cannot return is an array or a function. */
  predicate Unreturnable(t: Type, drv: seq<Drv>) {
    if drv == [] then t.Array? || t.Function? else !drv[|drv| - 1].PointerTo?
  }

  /** A function as the last derivation. */
  lemma {:induction false} LegalSnoc(t: Type, drv: seq<Drv>, sig: nat)
    ensures Legal(t, drv + [FunctionReturn(sig)]) ==
            if Legal(t, drv).None? || Unreturnable(t, drv) then None else Some(Function(Legal(t, drv).value, sig, PLAIN))
    decreases |drv|
  {
    var all := drv + [FunctionReturn(sig)];
    if drv == [] {
      assert all[1..] == [];
    } else {
      assert all[1..] == drv[1..] + [FunctionReturn(sig)];
      match drv[0]
      case PointerTo(q) => LegalSnoc(Pointer(t, q), drv[1..], sig);
      case ArrayOf(n) => LegalSnoc(Array(t, n, PLAIN), drv[1..], sig);
      case FunctionReturn(r) => LegalSnoc(Function(t, r, PLAIN), drv[1..], sig);
    }
  }

  lemma {:induction false} NotItsOwnResult(t: Type, sig: nat, q: Qual)
    ensures Function(t, sig, q) != t
    decreases t
  {
    if t.Function? {
      NotItsOwnResult(t.ret, t.sig, t.qual);
    }
  }

  lemma ArraysSnoc(t: Type, drv: seq<Drv>, sig: nat)
    ensures var all := drv + [FunctionReturn(sig)];
            (HasArray(all) <==> HasArray(drv)) && (ArrayOfFunction(t, all) <==> ArrayOfFunction(t, drv))
  {
    var all := drv + [FunctionReturn(sig)];
    if i :| 0 <= i < |drv| && drv[i].ArrayOf? {
      assert all[i] == drv[i];
    }
    if i :| 0 <= i < |drv| - 1 && drv[i].FunctionReturn? && drv[i + 1].ArrayOf? {
      assert all[i] == drv[i] && all[i + 1] == drv[i + 1];
    }
  }

  /** Where both accept the declaration, the declared type is the one the standard prescribes unless
      a parameter list has nothing in front of it: that function is lost. An accepted declaration is
      wrong exactly if it derives an array of functions or loses a function that could not return what
      is derived, and a right one is refused exactly if the base type is a function type and an array
      is derived. */
  lemma DeclaratorMeaning(d: Decl, base: Type)
    requires Pointee(d)
    ensures var ty, right := Declare(d, base), Meaning(d, base);
            && (ty.Some? && right.Some? ==> (ty == right <==> !Nameless(d)))
            && (ty.Some? && right.Some? && Nameless(d) ==> right.value.Function? && right.value.ret == ty.value)
            && (ty.Some? ==>
                  (right.None? <==> ArrayOfFunction(base, Drvs(d)) || (Nameless(d) && Unreturnable(base, Pushed(d)))))
            && (right.Some? ==> (ty.None? <==> base.Function? && HasArray(Drvs(d))))
  {
    ReadIs(d, State([], base.qual, None));
    MeaningIsLegal(d, base);
    var b, drv := Qualified(base, Flags(d)), Pushed(d);
    assert drv + [] == drv;
    assert Declare(d, base) == Derive(b, b, drv);
    FoldsCompared(b, b, drv);
    var sig := NamelessIsLast(d);
    if Nameless(d) {
      LegalSnoc(b, drv, sig);
      ArraysSnoc(b, drv, sig);
      hide HasArray;
      if Declare(d, base).Some? && Meaning(d, base).Some? {
        assert Meaning(d, base) == Some(Function(Declare(d, base).value, sig, PLAIN));
        NotItsOwnResult(Declare(d, base).value, sig, PLAIN);
      }
    }
    assert ArrayOfFunction(b, Drvs(d)) <==> ArrayOfFunction(base, Drvs(d));
  }

  // ----- what never arises -----

  /** No function returns an array or a function, but for those inside of the base type. */
  predicate ReturnsAreSound(t: Type, base: Type)
    decreases t
  {
    t == base ||
    match t
    case Simple(_, _) => true
    case Pointer(u, _) => ReturnsAreSound(u, base)
    case Array(u, _, _) => ReturnsAreSound(u, base)
    case Function(u, _, _) => !u.Array? && !u.Function? && ReturnsAreSound(u, base)
  }

  lemma {:induction false} DeriveIsSound(b: Type, t: Type, drv: seq<Drv>, base: Type)
    requires ReturnsAreSound(t, base) && Derive(b, t, drv).Some?
    ensures ReturnsAreSound(Derive(b, t, drv).value, base)
    decreases |drv|
  {
    if drv != [] {
      match drv[0]
      case PointerTo(q) => DeriveIsSound(b, Pointer(t, q), drv[1..], base);
      case ArrayOf(n) => DeriveIsSound(b, Array(t, n, PLAIN), drv[1..], base);
      case FunctionReturn(sig) => DeriveIsSound(b, Function(t, sig, PLAIN), drv[1..], base);
    }
  }

  /** For every declarator, standard or not. */
  lemma NoFunctionReturnsArrayOrFunction(d: Decl, base: Type)
    requires Declare(d, base).Some?
    ensures var st := Read(d, State([], base.qual, None));
            ReturnsAreSound(Declare(d, base).value, base.(qual := st.qual))
  {
    var st := Read(d, State([], base.qual, None));
    DeriveIsSound(base.(qual := st.qual), base.(qual := st.qual), st.drv, base.(qual := st.qual));
  }

  /** As in `int (int)`. */
  lemma AbstractFunctionIsLost(sig: nat, base: Type)
    requires base.Simple?
    ensures Declare(Fun(Abstract, sig), base) == Some(base)
    ensures Meaning(Fun(Abstract, sig), base) == Some(Function(base, sig, PLAIN))
  {
  }

  // ----- the stars of a type name -----

  /** The stars of a type name from left to right, each with its const: the standard derives the
      leftmost pointer first. */
  function StarsMeaning(t: Type, stars: seq<bool>): Type
    decreases |stars|
  {
    if stars == [] then t else StarsMeaning(Pointer(t, Qual(stars[0], false)), stars[1..])
  }

  /** Each star is pushed before the ones to its right. */
  function ReadStars(stars: seq<bool>, drv: seq<Drv>): seq<Drv> {
    if stars == [] then drv else ReadStars(stars[1..], [PointerTo(Qual(stars[0], false))] + drv)
  }

  function Reversed<T>(s: seq<T>): seq<T> {
    if s == [] then [] else Reversed(s[1..]) + [s[0]]
  }

  function Pointers(stars: seq<bool>): seq<Drv> {
    if stars == [] then [] else [PointerTo(Qual(stars[0], false))] + Pointers(stars[1..])
  }

  lemma {:induction false} PointersSnoc(stars: seq<bool>, b: bool)
    ensures Pointers(stars + [b]) == Pointers(stars) + [PointerTo(Qual(b, false))]
  {
    if stars == [] {
      assert Pointers([]) == [];
    } else {
      assert (stars + [b])[1..] == stars[1..] + [b];
      PointersSnoc(stars[1..], b);
    }
  }

  lemma {:induction false} ReadStarsIs(stars: seq<bool>, drv: seq<Drv>)
    ensures ReadStars(stars, drv) == Pointers(Reversed(stars)) + drv
    decreases stars
  {
    if stars != [] {
      ReadStarsIs(stars[1..], [PointerTo(Qual(stars[0], false))] + drv);
      PointersSnoc(Reversed(stars[1..]), stars[0]);
    }
  }

  lemma {:induction false} DerivePointers(base: Type, t: Type, stars: seq<bool>)
    ensures Derive(base, t, Pointers(stars)) == Some(StarsMeaning(t, stars))
    decreases stars
  {
    if stars != [] {
      assert Pointers(stars)[1..] == Pointers(stars[1..]);
      DerivePointers(base, Pointer(t, Qual(stars[0], false)), stars[1..]);
    }
  }

  /** The flags of the pointers of a type, from the outside. */
  function Outside(t: Type, n: nat): seq<bool>
    decreases n
  {
    if n == 0 || !t.Pointer? then [] else Outside(t.to, n - 1) + [t.qual.isConst]
  }

  lemma {:induction false} StarsInjective(t: Type, stars: seq<bool>, stars': seq<bool>)
    requires |stars| == |stars'| && StarsMeaning(t, stars) == StarsMeaning(t, stars')
    ensures stars == stars'
  {
    StarsOutside(t, stars);
    StarsOutside(t, stars');
  }

  lemma {:induction false} StarsOutside(t: Type, stars: seq<bool>)
    ensures Outside(StarsMeaning(t, stars), |stars|) == stars
    decreases |stars|
  {
    if stars != [] {
      var last, front := stars[|stars| - 1], stars[..|stars| - 1];
      StarsSnoc(t, front, last);
      assert front + [last] == stars;
      StarsOutside(t, front);
    }
  }

  lemma {:induction false} StarsSnoc(t: Type, stars: seq<bool>, b: bool)
    ensures StarsMeaning(t, stars + [b]) == Pointer(StarsMeaning(t, stars), Qual(b, false))
    decreases stars
  {
    if stars == [] {
      assert ([] + [b])[1..] == [];
    } else {
      assert (stars + [b])[1..] == stars[1..] + [b];
      StarsSnoc(Pointer(t, Qual(stars[0], false)), stars[1..], b);
    }
  }

  /** The pointers of a type name are derived in reverse: the type is right if and only if the const
      flags read the same from both ends. */
  lemma StarsAreReversed(base: Type, stars: seq<bool>)
    ensures Derive(base, base, ReadStars(stars, [])) == Some(StarsMeaning(base, Reversed(stars)))
    ensures Derive(base, base, ReadStars(stars, [])) == Some(StarsMeaning(base, stars)) <==> Reversed(stars) == stars
  {
    ReadStarsIs(stars, []);
    assert Pointers(Reversed(stars)) + [] == Pointers(Reversed(stars));
    DerivePointers(base, base, Reversed(stars));
    ReversedLength(stars);
    if StarsMeaning(base, Reversed(stars)) == StarsMeaning(base, stars) {
      StarsInjective(base, Reversed(stars), stars);
    }
  }

  lemma {:induction false} ReversedLength<T>(s: seq<T>)
    ensures |Reversed(s)| == |s|
  {
    if s != [] {
      ReversedLength(s[1..]);
    }
  }

  // ----- the record that is filled while reading -----

  /** Trees of the grammar: brackets and parameters follow a direct declarator. */
  predicate Grammatical(d: Decl) {
    match d
    case Name(_) => true
    case Abstract => true
    case Arr(i, _) => Grammatical(i) && !i.Const? && !i.Vect? && !i.Star?
    case Fun(i, _) => Grammatical(i) && !i.Const? && !i.Vect? && !i.Star?
    case _ => Grammatical(d.inner)
  }

  /** The declaration record: base type, derivations, qualifiers and name. */
  class Record {
    const base: Type
    var drv: seq<Drv>
    var qual: Qual
    var name: Option<string>

    ghost function Now(): State
      reads this
    {
      State(drv, qual, name)
    }

    constructor (base: Type)
      ensures this.base == base && Now() == State([], base.qual, None)
    {
      this.base := base;
      drv, qual, name := [], base.qual, None;
    }

    method ParseCdecl2(d: Decl)
      requires Grammatical(d)
      modifies this
      ensures Now() == Read(d, old(Now()))
      decreases d, 1
    {
      match d
      case Const(i) =>
        qual := qual.(isConst := true);
        ParseCdecl2(i);
      case Vect(i) =>
        qual := qual.(vect := true);
        ParseCdecl2(i);
      case Star(i) =>
        ParsePoint(i);
      case _ =>
        ParseCdecl3(d);
    }

    /** The qualifiers of the pointer are collected apart from those around it. */
    method ParsePoint(i: Decl)
      requires Grammatical(i)
      modifies this
      ensures Now() == Read(Star(i), old(Now()))
      decreases i, 2
    {
      var outer := qual;
      qual := PLAIN;
      ParseCdecl2(i);
      drv := [PointerTo(qual)] + drv;
      qual := outer;
    }

    method ParseCdecl3(d: Decl)
      requires Grammatical(d) && !d.Const? && !d.Vect? && !d.Star?
      modifies this
      ensures Now() == Read(d, old(Now()))
      decreases d, 0
    {
      match d
      case Arr(i, n) =>
        ParseCdecl3(i);
        drv := [ArrayOf(n)] + drv;
      case Fun(i, sig) =>
        if !i.Abstract? {
          ParseCdecl3(i);
          drv := [FunctionReturn(sig)] + drv;
        }
      case Paren(i) =>
        ParseCdecl2(i);
      case Name(id) =>
        name := Some(id);
      case Abstract =>
    }

    method ParseStar(stars: seq<bool>)
      modifies this`drv
      ensures drv == ReadStars(stars, old(drv))
      decreases |stars|
    {
      if stars != [] {
        drv := [PointerTo(Qual(stars[0], false))] + drv;
        ParseStar(stars[1..]);
      }
    }

    method DeriveType() returns (t: Option<Type>)
      ensures var b := base.(qual := qual); t == Derive(b, b, drv)
    {
      var b := base.(qual := qual);
      var ty, k := b, 0;
      while k < |drv|
        invariant 0 <= k <= |drv|
        invariant Derive(b, ty, drv[k..]) == Derive(b, b, drv)
      {
        assert drv[k..][0] == drv[k] && drv[k..][1..] == drv[k + 1..];
        match drv[k] {
          case PointerTo(q) =>
            ty := Pointer(ty, q);
          case ArrayOf(n) =>
            if b.Function? {
              return None;
            }
            ty := Array(ty, n, PLAIN);
          case FunctionReturn(sig) =>
            if ty.Array? || ty.Function? {
              return None;
            }
            ty := Function(ty, sig, PLAIN);
        }
        k := k + 1;
      }
      assert drv[k..] == [];
      return Some(ty);
    }
  }

  /** The type of a declaration, or None with an error. */
  method ParseDecl(d: Decl, base: Type) returns (t: Option<Type>)
    requires Grammatical(d)
    ensures t == Declare(d, base)
  {
    var r := new Record(base);
    r.ParseCdecl2(d);
    t := r.DeriveType();
  }
}
