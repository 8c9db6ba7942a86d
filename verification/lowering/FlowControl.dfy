/** Which methods need an exception flag: the search for escaping calls and throws. */
module FlowControl {
  import opened Common
  import opened Dml

  datatype Kind = CallKind | ThrowKind | ReturnKind

  predicate IsKind(s: Stmt, k: Kind) {
    match k
    case CallKind => s.Call?
    case ThrowKind => s.Throw?
    case ReturnKind => s.Return?
  }

  /** The search as applied to a single node; other nodes than these are not entered. */
  predicate BlockHas(s: Stmt, k: Kind)
    decreases s, 1
  {
    IsKind(s, k) ||
    match s
    case Block(ss) => SeqHas(ss, k)
    case Inline(_, _, body, _) => !k.ReturnKind? && BlockHas(body, k)
    case For(_, _, _, _, body) => BlockHas(body, k)
    case If(_, _, thn, els) => BlockHas(thn, k) || ElseHas(els, k)
    case _ => false
  }

  predicate ElseHas(els: Else, k: Kind)
    decreases els, 0
  {
    match els
    case NoElse => false
    case ElseIf(s) => BlockHas(s, k)
    case ElseBlock(_, s) => BlockHas(s, k)
  }

  /** The walk over the statements of a block, which enters more kinds of nodes. */
  predicate SeqHas(ss: seq<Stmt>, k: Kind)
    decreases ss, 0
  {
    ss != [] && (ItemHas(ss[0], k) || SeqHas(ss[1..], k))
  }

  predicate ItemHas(s: Stmt, k: Kind)
    decreases s, 2
  {
    match s
    case While(_, _, body) => BlockHas(body, k)
    case Try(_, body, handler) => (k.ReturnKind? && BlockHas(body, k)) || BlockHas(handler, k)
    case Switch(_, cases) => SeqHas(cases, k)
    case Case(_, body) => BlockHas(body, k)
    case _ => BlockHas(s, k)
  }

  predicate HasExec(m: Method) {
    BlockHas(m.body, CallKind) || BlockHas(m.body, ThrowKind)
  }

  predicate HasReturn(m: Method) {
    BlockHas(m.body, ReturnKind)
  }

  /** The syntax has a call, a throw or a return that can leave the statement. */
  predicate May(s: Stmt, k: Kind)
    decreases s, 1
  {
    IsKind(s, k) ||
    match s
    case Block(ss) => SomeMay(ss, k)
    case If(_, _, thn, els) => May(thn, k) || ElseMay(els, k)
    case While(_, _, body) => May(body, k)
    case For(_, _, _, _, body) => May(body, k)
    case Switch(_, cases) => SomeMay(cases, k)
    case Case(_, body) => May(body, k)
    case Default(body) => May(body, k)
    case Labeled(body) => May(body, k)
    case Inline(_, _, body, _) => !k.ReturnKind? && May(body, k)
    case Try(_, body, handler) => (k.ReturnKind? && May(body, k)) || May(handler, k)
    case _ => false
  }

  predicate ElseMay(els: Else, k: Kind)
    decreases els, 0
  {
    match els
    case NoElse => false
    case ElseIf(s) => May(s, k)
    case ElseBlock(_, s) => May(s, k)
  }

  predicate SomeMay(ss: seq<Stmt>, k: Kind)
    decreases ss, 0
  {
    ss != [] && (May(ss[0], k) || SomeMay(ss[1..], k))
  }

  /** Whether a statement can end with an exception or a return, read off the whole of its syntax. */
  predicate MayEnd(s: Stmt, o: Outcome)
    requires o == Thrown || o == Returned
  {
    if o == Thrown then May(s, CallKind) || May(s, ThrowKind) else May(s, ReturnKind)
  }

  predicate SomeMayEnd(ss: seq<Stmt>, o: Outcome)
    requires o == Thrown || o == Returned
  {
    if o == Thrown then SomeMay(ss, CallKind) || SomeMay(ss, ThrowKind) else SomeMay(ss, ReturnKind)
  }

  /** Where a single statement stands, the search passes over a node that has one. */
  predicate Hidden(s: Stmt, k: Kind)
    decreases s, 1
  {
    match s
    case Block(ss) => SomeHidden(ss, k)
    case Inline(_, _, body, _) => !k.ReturnKind? && Hidden(body, k)
    case For(_, _, _, _, body) => Hidden(body, k)
    case If(_, _, thn, els) => Hidden(thn, k) || ElseHidden(els, k)
    case _ => !IsKind(s, k) && May(s, k)
  }

  predicate ElseHidden(els: Else, k: Kind)
    decreases els, 0
  {
    match els
    case NoElse => false
    case ElseIf(s) => Hidden(s, k)
    case ElseBlock(_, s) => Hidden(s, k)
  }

  predicate SomeHidden(ss: seq<Stmt>, k: Kind)
    decreases ss, 0
  {
    ss != [] && (HiddenItem(ss[0], k) || SomeHidden(ss[1..], k))
  }

  /** The same for a statement of a list, where more nodes are entered. */
  predicate HiddenItem(s: Stmt, k: Kind)
    decreases s, 2
  {
    match s
    case While(_, _, body) => Hidden(body, k)
    case Try(_, body, handler) => (k.ReturnKind? && Hidden(body, k)) || Hidden(handler, k)
    case Switch(_, cases) => SomeHidden(cases, k)
    case Case(_, body) => Hidden(body, k)
    case _ => Hidden(s, k)
  }

  /** For every statement the search finds what is there, but for what it passes over. */
  lemma {:induction false} SearchIsExact(s: Stmt, k: Kind)
    ensures May(s, k) <==> BlockHas(s, k) || Hidden(s, k)
    decreases s, 1
  {
    match s
    case Block(ss) => SearchIsExactSeq(ss, k);
    case If(_, _, thn, els) => SearchIsExact(thn, k); SearchIsExactElse(els, k);
    case For(_, _, _, _, body) => SearchIsExact(body, k);
    case Inline(_, _, body, _) => SearchIsExact(body, k);
    case _ =>
  }

  lemma {:induction false} SearchIsExactItem(s: Stmt, k: Kind)
    ensures May(s, k) <==> ItemHas(s, k) || HiddenItem(s, k)
    decreases s, 2
  {
    match s
    case While(_, _, body) => SearchIsExact(body, k);
    case Switch(_, cases) => SearchIsExactSeq(cases, k);
    case Case(_, body) => SearchIsExact(body, k);
    case Try(_, body, handler) => SearchIsExact(body, k); SearchIsExact(handler, k);
    case _ => SearchIsExact(s, k);
  }

  lemma {:induction false} SearchIsExactElse(els: Else, k: Kind)
    ensures ElseMay(els, k) <==> ElseHas(els, k) || ElseHidden(els, k)
    decreases els, 0
  {
    match els
    case NoElse =>
    case ElseIf(s) => SearchIsExact(s, k);
    case ElseBlock(_, s) => SearchIsExact(s, k);
  }

  lemma {:induction false} SearchIsExactSeq(ss: seq<Stmt>, k: Kind)
    ensures SomeMay(ss, k) <==> SeqHas(ss, k) || SomeHidden(ss, k)
    decreases ss, 0
  {
    if ss != [] {
      SearchIsExactItem(ss[0], k);
      SearchIsExactSeq(ss[1..], k);
    }
  }

  /** The answer for a method: a flag that is not given is wrong for exactly the methods in which the
      search passes over an escaping call or throw. */
  lemma HasExecIsExact(m: Method)
    ensures HasExec(m) ==> MayEnd(m.body, Thrown)
    ensures !HasExec(m) ==> (MayEnd(m.body, Thrown) <==> Hidden(m.body, CallKind) || Hidden(m.body, ThrowKind))
    ensures HasReturn(m) || Hidden(m.body, ReturnKind) <==> MayEnd(m.body, Returned)
  {
    SearchIsExact(m.body, CallKind);
    SearchIsExact(m.body, ThrowKind);
    SearchIsExact(m.body, ReturnKind);
  }

  predicate Ended(r: Option<Run>, o: Outcome) {
    r.Some? && r.value.outcome == o
  }

  /** A statement that cannot throw (or return) by its syntax never does. */
  lemma {:induction false} NeverEnds(p: Program, s: Stmt, o: Outcome, st: Store, fuel: nat)
    requires (o == Thrown || o == Returned) && !MayEnd(s, o)
    ensures !Ended(Exec(p, s, st, fuel), o)
    decreases fuel, s, 1
  {
    match s
    case Block(ss) => NeverEndsSeq(p, ss, o, st, fuel);
    case If(_, _, thn, els) =>
      NeverEnds(p, thn, o, st, fuel);
      match els {
        case NoElse =>
        case ElseIf(e) => assert forall k :: ElseMay(els, k) == May(e, k); NeverEnds(p, e, o, st, fuel);
        case ElseBlock(_, e) => assert forall k :: ElseMay(els, k) == May(e, k); NeverEnds(p, e, o, st, fuel);
      }
    case While(g, _, body) => NeverEndsLoop(p, g, IDENTITY, body, s, o, st, fuel);
    case For(init, g, update, _, body) => NeverEndsLoop(p, g, update, body, s, o, init(st), fuel);
    case Switch(sel, cases) =>
      var k := FindCase(cases, sel(st));
      SuffixMayEnd(cases, k, o);
      NeverEndsSeq(p, cases[k..], o, st, fuel);
    case Case(_, body) => NeverEnds(p, body, o, st, fuel);
    case Default(body) => NeverEnds(p, body, o, st, fuel);
    case Labeled(body) => NeverEnds(p, body, o, st, fuel);
    case Inline(bind, _, body, _) => if o == Thrown { NeverEnds(p, body, o, bind(st), fuel); }
    case Try(_, body, handler) =>
      if o == Returned { NeverEnds(p, body, o, st, fuel); }
      var r := Exec(p, body, st, fuel);
      if Ended(r, Thrown) && fuel > 0 {
        NeverEnds(p, handler, o, r.value.store, fuel - 1);
      }
    case _ =>
  }

  lemma SuffixMayEnd(ss: seq<Stmt>, k: nat, o: Outcome)
    requires (o == Thrown || o == Returned) && k <= |ss| && !SomeMayEnd(ss, o)
    ensures !SomeMayEnd(ss[k..], o)
  {
    if k == 0 {
      assert ss[k..] == ss;
    } else {
      SuffixMayEnd(ss[1..], k - 1, o);
      assert ss[k..] == ss[1..][k - 1..];
    }
  }

  lemma {:induction false} NeverEndsSeq(p: Program, ss: seq<Stmt>, o: Outcome, st: Store, fuel: nat)
    requires (o == Thrown || o == Returned) && !SomeMayEnd(ss, o)
    ensures !Ended(ExecSeq(p, ss, st, fuel), o)
    decreases fuel, ss, 0
  {
    if ss != [] {
      NeverEnds(p, ss[0], o, st, fuel);
      var r := Exec(p, ss[0], st, fuel);
      if r.Some? && r.value.outcome == Normal {
        NeverEndsSeq(p, ss[1..], o, r.value.store, fuel);
      }
    }
  }

  lemma {:induction false} NeverEndsLoop(p: Program, g: Store -> bool, update: Store -> Store, body: Stmt, whole: Stmt,
                                         o: Outcome, st: Store, fuel: nat)
    requires (o == Thrown || o == Returned) && body < whole && !MayEnd(body, o)
    ensures !Ended(ExecLoop(p, g, update, body, whole, st, fuel), o)
    decreases fuel, whole, 0
  {
    if g(st) {
      NeverEnds(p, body, o, st, fuel);
      var r := Exec(p, body, st, fuel);
      if r.Some? && fuel > 0 {
        NeverEndsLoop(p, g, update, body, whole, o, update(r.value.store), fuel - 1);
      }
    }
  }

  /** The analysis is sound where nothing is passed over: a method that gets no flag lets no exception out. */
  lemma HasExecIsSound(p: Program, name: Name, st: Store, fuel: nat)
    requires name in p && !Hidden(p[name].body, CallKind) && !Hidden(p[name].body, ThrowKind)
    requires !HasExec(p[name])
    ensures var r := ExecMethod(p, name, st, fuel); r.Some? ==> !r.value.0
  {
    if fuel > 0 {
      HasExecIsExact(p[name]);
      NeverEnds(p, p[name].body, Thrown, st, fuel - 1);
    }
  }

  lemma ExecSingle(p: Program, s: Stmt, st: Store, fuel: nat)
    ensures ExecSeq(p, [s], st, fuel) == Exec(p, s, st, fuel)
    ensures Exec(p, Block([s]), st, fuel) == Exec(p, s, st, fuel)
  {
    assert [s][1..] == [];
  }

  /** A method body of one statement that gets no flag although an exception leaves it. */
  predicate Missed(p: Program, s: Stmt, st: Store) {
    !HasExec(Method(0, Block([s]))) && Ended(Exec(p, Block([s]), st, 1), Thrown)
  }

  lemma MissedByWalk(p: Program, s: Stmt, st: Store)
    requires !ItemHas(s, CallKind) && !ItemHas(s, ThrowKind) && Ended(Exec(p, s, st, 1), Thrown)
    ensures Missed(p, s, st)
  {
    ExecSingle(p, s, st, 1);
    SeqHasSingle(s, CallKind);
    SeqHasSingle(s, ThrowKind);
  }

  lemma SeqHasSingle(s: Stmt, k: Kind)
    ensures SeqHas([s], k) == ItemHas(s, k)
  {
    assert [s][1..] == [];
  }

  /** Each kind of node that the search passes over hides a throw that does escape: a default or a
      label in a list, and a loop, switch or try where a single statement stands. */
  lemma BlindSpots(p: Program, st: Store, c: Store -> bool, sel: Store -> int, t: Table)
    requires c(st)
    ensures Missed(p, Default(Throw), st)
    ensures Missed(p, Labeled(Throw), st)
    ensures Missed(p, If(Cond(c, Unknown), t, While(c, t, Throw), NoElse), st)
    ensures Missed(p, If(Cond(c, Unknown), t, Switch(sel, [Case(sel(st), Throw)]), NoElse), st)
    ensures Missed(p, While(c, t, Try(t, Throw, Throw)), st)
  {
    hide Exec, BlockHas, ItemHas;
    BlindLabels(p, st);
    BlindLoop(p, st, c, t);
    BlindBranch(p, While(c, t, Throw), st, c, t);
    SwitchThrows(p, st, sel);
    BlindBranch(p, Switch(sel, [Case(sel(st), Throw)]), st, c, t);
    BlindTry(p, st, c, t);
  }

  lemma BlindLabels(p: Program, st: Store)
    ensures Missed(p, Default(Throw), st) && Missed(p, Labeled(Throw), st)
  {
    MissedByWalk(p, Default(Throw), st);
    MissedByWalk(p, Labeled(Throw), st);
  }

  lemma BlindLoop(p: Program, st: Store, c: Store -> bool, t: Table)
    requires c(st)
    ensures Ended(Exec(p, While(c, t, Throw), st, 1), Thrown)
  {
    assert Ended(Exec(p, Throw, st, 1), Thrown);
  }

  lemma BlindBranch(p: Program, s: Stmt, st: Store, c: Store -> bool, t: Table)
    requires c(st) && (s.While? || s.Switch?) && Ended(Exec(p, s, st, 1), Thrown)
    ensures Missed(p, If(Cond(c, Unknown), t, s, NoElse), st)
  {
    var node := If(Cond(c, Unknown), t, s, NoElse);
    assert forall k :: ItemHas(node, k) == BlockHas(node, k) == BlockHas(s, k);
    MissedByWalk(p, node, st);
  }

  lemma SwitchThrows(p: Program, st: Store, sel: Store -> int)
    ensures Ended(Exec(p, Switch(sel, [Case(sel(st), Throw)]), st, 1), Thrown)
  {
    var cases := [Case(sel(st), Throw)];
    assert FindCase(cases, sel(st)) == 0 && cases[0..] == cases;
    ExecSingle(p, cases[0], st, 1);
  }

  lemma BlindTry(p: Program, st: Store, c: Store -> bool, t: Table)
    requires c(st)
    ensures Missed(p, While(c, t, Try(t, Throw, Throw)), st)
  {
    var retry := Try(t, Throw, Throw);
    assert Ended(Exec(p, retry, st, 1), Thrown);
    var loop := While(c, t, retry);
    assert Ended(Exec(p, loop, st, 1), Thrown);
    assert forall k :: ItemHas(loop, k) == BlockHas(retry, k);
    MissedByWalk(p, loop, st);
  }
}
