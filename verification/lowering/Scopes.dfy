/** Flags: which one the text of a statement uses, and where it is declared. */
module Scopes {
  import opened Common
  import opened Dml
  import opened CTarget
  import opened FlowControl
  import opened Emission
  import opened Labels

  /** Every flag that the text uses is among `fs` or declared by a block around the use. */
  predicate Scoped(c: CStmt, fs: set<Flag>)
    decreases c, 1
  {
    match c
    case CBlock(None, items) => AllScoped(items, fs)
    case CBlock(Some(x), items) => AllScoped(items, fs + {x})
    case CSwitch(_, items) => AllScoped(items, fs)
    case CIf(test, thn, els) =>
      (test.OnFlag? ==> test.flag in fs) && Scoped(thn, fs) && (els.Some? ==> Scoped(els.value, fs))
    case CLoop(_, _, _, body) => Scoped(body, fs)
    case CSetFlag(x) => x in fs
    case CCall(x, _, _, _) => x in fs
    case _ => true
  }

  predicate AllScoped(items: seq<CStmt>, fs: set<Flag>)
    decreases items, 0
  {
    items != [] ==> Scoped(items[0], fs) && AllScoped(items[1..], fs)
  }

  // ----- which statements use the flag of the flow context -----

  /** A call is emitted whose exception can leave the statement. */
  predicate MayCall(p: Program, s: Stmt)
    decreases s, 1
  {
    match s
    case Call(m, _, _) => !EmptyMethod(p, m)
    case Block(ss) => SomeMayCall(p, ss)
    case Switch(_, ss) => SomeMayCall(p, ss)
    case If(c, _, thn, els) => (!c.folded.IsFalse? && MayCall(p, thn)) || (!c.folded.IsTrue? && ElseMayCall(p, els))
    case While(_, _, body) => MayCall(p, body)
    case For(_, _, _, _, body) => MayCall(p, body)
    case Case(_, body) => MayCall(p, body)
    case Default(body) => MayCall(p, body)
    case Labeled(body) => MayCall(p, body)
    case Inline(_, _, body, _) => MayCall(p, body)
    case Try(_, _, handler) => MayCall(p, handler)
    case _ => false
  }

  predicate ElseMayCall(p: Program, els: Else)
    decreases els, 0
  {
    match els
    case NoElse => false
    case ElseIf(s) => MayCall(p, s)
    case ElseBlock(_, s) => MayCall(p, s)
  }

  predicate SomeMayCall(p: Program, ss: seq<Stmt>)
    decreases ss, 0
  {
    ss != [] && (MayCall(p, ss[0]) || SomeMayCall(p, ss[1..]))
  }

  /** The same, where no try inside declares a flag of table x. */
  predicate Needs(p: Program, s: Stmt, cur: Table, x: Table)
    decreases s, 1, 0
  {
    match s
    case Try(_, _, handler) => cur != x && Needs(p, handler, cur, x)
    case Call(m, _, _) => !EmptyMethod(p, m)
    case _ => AnyNeeds(p, Parts(s, cur), s, x)
  }

  predicate AnyNeeds(p: Program, ps: seq<Part>, whole: Stmt, x: Table)
    requires forall y <- ps :: y.stmt < whole
    decreases whole, 0, |ps|
  {
    ps != [] && (Needs(p, ps[0].stmt, ps[0].table, x) || AnyNeeds(p, ps[1..], whole, x))
  }

  lemma AnyPartNeeds(p: Program, ps: seq<Part>, whole: Stmt, x: Table, i: nat)
    requires (forall y <- ps :: y.stmt < whole) && i < |ps| && Needs(p, ps[i].stmt, ps[i].table, x)
    ensures AnyNeeds(p, ps, whole, x)
    decreases i
  {
    if i > 0 {
      AnyPartNeeds(p, ps[1..], whole, x, i - 1);
    }
  }

  lemma {:induction false} MayCallIsSyntax(p: Program, s: Stmt)
    requires MayCall(p, s)
    ensures May(s, CallKind)
    decreases s, 1
  {
    match s
    case Block(ss) => SomeMayCallIsSyntax(p, ss);
    case Switch(_, ss) => SomeMayCallIsSyntax(p, ss);
    case If(c, _, thn, els) =>
      if !c.folded.IsFalse? && MayCall(p, thn) {
        MayCallIsSyntax(p, thn);
      } else {
        match els {
          case ElseIf(e) => MayCallIsSyntax(p, e);
          case ElseBlock(_, e) => MayCallIsSyntax(p, e);
        }
        assert ElseMay(els, CallKind);
      }
    case Call(_, _, _) =>
    case Try(_, _, handler) => MayCallIsSyntax(p, handler);
    case While(_, _, body) => MayCallIsSyntax(p, body);
    case For(_, _, _, _, body) => MayCallIsSyntax(p, body);
    case Case(_, body) => MayCallIsSyntax(p, body);
    case Default(body) => MayCallIsSyntax(p, body);
    case Labeled(body) => MayCallIsSyntax(p, body);
    case Inline(_, _, body, _) => MayCallIsSyntax(p, body);
  }

  lemma {:induction false} SomeMayCallIsSyntax(p: Program, ss: seq<Stmt>)
    requires SomeMayCall(p, ss)
    ensures SomeMay(ss, CallKind)
    decreases ss, 0
  {
    if MayCall(p, ss[0]) {
      MayCallIsSyntax(p, ss[0]);
    } else {
      SomeMayCallIsSyntax(p, ss[1..]);
    }
  }

  /** The parts of a statement other than a try that may call. */
  lemma CallingParts(p: Program, s: Stmt, cur: Table)
    requires !s.Try? && !s.Call?
    ensures MayCall(p, s) <==> exists i | 0 <= i < Arity(s) :: MayCall(p, Parts(s, cur)[i].stmt)
  {
    hide Needs;
    var ps := Parts(s, cur);
    match s
    case Block(ss) => CallingList(p, ss); assert forall i | 0 <= i < |ss| :: ps[i].stmt == ss[i];
    case Switch(_, ss) => CallingList(p, ss); assert forall i | 0 <= i < |ss| :: ps[i].stmt == ss[i];
    case If(_, _, _, _) => CallingBranches(p, s, cur);
    case Inline(_, _, body, _) => assert IsEmpty(body) ==> !SomeMayCall(p, []); assert |ps| > 0 ==> ps[0].stmt == body;
    case While(_, _, body) => assert ps[0].stmt == body;
    case For(_, _, _, _, body) => assert ps[0].stmt == body;
    case Case(_, body) => assert ps[0].stmt == body;
    case Default(body) => assert ps[0].stmt == body;
    case Labeled(body) => assert ps[0].stmt == body;
    case _ =>
  }

  lemma CallingBranches(p: Program, s: Stmt, cur: Table)
    requires s.If?
    ensures MayCall(p, s) <==> exists i | 0 <= i < Arity(s) :: MayCall(p, Parts(s, cur)[i].stmt)
  {
    var ps, c, other := Parts(s, cur), s.cond.folded, ElseParts(s.els, cur, s.cond.folded.Unknown?);
    assert ElseMayCall(p, s.els) <==> other != [] && MayCall(p, other[0].stmt);
    assert !c.IsFalse? ==> ps[0].stmt == s.thn;
    assert !c.IsTrue? && other != [] ==> ps[|ps| - 1] == other[0];
    MayCallOfIf(p, s);
    hide MayCall;
    if i :| 0 <= i < |ps| && MayCall(p, ps[i].stmt) {
      assert i == 0 || i == |ps| - 1;
    }
  }

  lemma MayCallOfIf(p: Program, s: Stmt)
    requires s.If?
    ensures MayCall(p, s) <==> (!s.cond.folded.IsFalse? && MayCall(p, s.thn)) || (!s.cond.folded.IsTrue? && ElseMayCall(p, s.els))
  {
  }

  lemma {:induction false} CallingList(p: Program, ss: seq<Stmt>)
    ensures SomeMayCall(p, ss) <==> exists i | 0 <= i < |ss| :: MayCall(p, ss[i])
  {
    hide MayCall;
    if ss != [] {
      CallingList(p, ss[1..]);
      if i :| 0 <= i < |ss| && MayCall(p, ss[i]) {
        assert i > 0 ==> ss[1..][i - 1] == ss[i];
      }
    }
  }

  /** A flag that no try inside declares is needed exactly by statements that may call. */
  lemma {:induction false} NeedsIsMayCall(p: Program, s: Stmt, cur: Table, x: Table)
    ensures Needs(p, s, cur, x) ==> MayCall(p, s)
    ensures !Clobbers(s, x, cur) ==> (Needs(p, s, cur, x) <==> MayCall(p, s))
    decreases s, 1
  {
    match s
    case Try(_, _, handler) => NeedsIsMayCall(p, handler, cur, x);
    case Call(_, _, _) =>
    case _ =>
      CallingParts(p, s, cur);
      AnyNeedsIsMayCall(p, Parts(s, cur), s, x);
  }

  lemma {:induction false} AnyNeedsIsMayCall(p: Program, ps: seq<Part>, whole: Stmt, x: Table)
    requires forall y <- ps :: y.stmt < whole
    ensures AnyNeeds(p, ps, whole, x) ==> exists i | 0 <= i < |ps| :: MayCall(p, ps[i].stmt)
    ensures !AnyClobbers(ps, whole, x) ==> (AnyNeeds(p, ps, whole, x) <==> exists i | 0 <= i < |ps| :: MayCall(p, ps[i].stmt))
    decreases whole, 0, |ps|
  {
    if ps != [] {
      var rest := ps[1..];
      NeedsIsMayCall(p, ps[0].stmt, ps[0].table, x);
      AnyNeedsIsMayCall(p, rest, whole, x);
      hide MayCall;
      if i :| 0 <= i < |rest| && MayCall(p, rest[i].stmt) {
        assert ps[i + 1] == rest[i];
      }
      if i :| 0 <= i < |ps| && MayCall(p, ps[i].stmt) {
        assert i > 0 ==> rest[i - 1] == ps[i];
      }
    }
  }

  // ----- the text combinators -----

  lemma ScopedConcat(a: seq<CStmt>, b: seq<CStmt>, fs: set<Flag>)
    ensures AllScoped(a + b, fs) <==> AllScoped(a, fs) && AllScoped(b, fs)
  {
    if a == [] {
      assert a + b == b;
    } else {
      assert (a + b)[1..] == a[1..] + b;
      ScopedConcat(a[1..], b, fs);
    }
  }

  lemma ScopedOne(c: CStmt, fs: set<Flag>)
    ensures AllScoped([c], fs) <==> Scoped(c, fs)
  {
    assert [c][1..] == [];
  }

  lemma ScopedFill(c: CStmt, e: CStmt, fs: set<Flag>)
    requires Hole(c)
    ensures Scoped(Fill(c, e), fs) <==> Scoped(c, fs) && Scoped(e, fs)
  {
  }

  lemma ScopedAttach(c: CStmt, e: CStmt, fs: set<Flag>)
    requires Open(c)
    ensures Scoped(Attach(c, e), fs) <==> Scoped(c, fs) && Scoped(e, fs)
  {
  }

  lemma ScopedJoined(items: seq<CStmt>, fs: set<Flag>)
    ensures AllScoped(Joined(items), fs) <==> AllScoped(items, fs)
  {
    if items != [] {
      ScopedJoined(items[1..], fs);
      var c, rest := items[0], Joined(items[1..]);
      if rest == [] || !Hole(c) {
        ScopedConcat([c], rest, fs);
        ScopedOne(c, fs);
      } else if rest[0].CCase? || rest[0].CDefault? || rest[0].CLabel? {
        assert [c, CStray] == [c] + [CStray];
        ScopedConcat([c, CStray], rest, fs);
        ScopedConcat([c], [CStray], fs);
        ScopedOne(c, fs);
        ScopedOne(CStray, fs);
      } else {
        ScopedFill(c, rest[0], fs);
        ScopedConcat([Fill(c, rest[0])], rest[1..], fs);
        ScopedOne(Fill(c, rest[0]), fs);
      }
    }
  }

  lemma ScopedFirst(code: seq<CStmt>, fs: set<Flag>)
    ensures AllScoped(code, fs) <==> Scoped(First(code), fs) && AllScoped(Rest(code), fs)
  {
  }

  lemma ScopedWithElse(items: seq<CStmt>, es: seq<CStmt>, fs: set<Flag>)
    ensures AllScoped(WithElse(items, es), fs) <==> AllScoped(items, fs) && AllScoped(es, fs)
  {
    if items != [] && Open(items[|items| - 1]) {
      var front, last := items[..|items| - 1], items[|items| - 1];
      assert items == front + [last];
      var joined := Attach(last, First(es));
      ScopedConcat(front, [last], fs);
      ScopedOne(last, fs);
      ScopedAttach(last, First(es), fs);
      ScopedFirst(es, fs);
      ScopedConcat(front + [joined], Rest(es), fs);
      ScopedConcat(front, [joined], fs);
      ScopedOne(joined, fs);
    } else {
      ScopedConcat(items + [CStray], es, fs);
      ScopedConcat(items, [CStray], fs);
      ScopedOne(CStray, fs);
    }
  }

  lemma ScopedIfCode(test: CTest, thn: seq<CStmt>, els: Option<seq<CStmt>>, fs: set<Flag>)
    ensures AllScoped(IfCode(test, thn, els), fs) <==>
            (test.OnFlag? ==> test.flag in fs) && AllScoped(thn, fs) && (els.Some? ==> AllScoped(els.value, fs))
  {
    var head := [CIf(test, First(thn), None)] + Rest(thn);
    ScopedConcat([head[0]], Rest(thn), fs);
    ScopedOne(head[0], fs);
    ScopedFirst(thn, fs);
    if els.Some? {
      ScopedWithElse(head, els.value, fs);
    }
  }

  lemma ScopedLoopCode(init: Store -> Store, g: Store -> bool, update: Store -> Store, body: seq<CStmt>, fs: set<Flag>)
    ensures AllScoped(LoopCode(init, g, update, body), fs) <==> AllScoped(body, fs)
  {
    var c := CLoop(init, g, update, First(body));
    ScopedConcat([c], Rest(body), fs);
    ScopedOne(c, fs);
    ScopedFirst(body, fs);
  }

  predicate EachScoped(cs: seq<seq<CStmt>>, fs: set<Flag>) {
    cs != [] ==> AllScoped(cs[0], fs) && EachScoped(cs[1..], fs)
  }

  lemma ScopedConcatAll(cs: seq<seq<CStmt>>, fs: set<Flag>)
    ensures AllScoped(Concat(cs), fs) <==> EachScoped(cs, fs)
  {
    if cs != [] {
      ScopedConcat(cs[0], Concat(cs[1..]), fs);
    }
  }

  lemma ScopedList(cs: seq<seq<CStmt>>, fs: set<Flag>)
    ensures AllScoped(Joined(Concat(cs)), fs) <==> EachScoped(cs, fs)
  {
    ScopedConcatAll(cs, fs);
    ScopedJoined(Concat(cs), fs);
  }

  lemma ScopedCall(p: Program, s: Stmt, flow: Flow, g: Gen, fs: set<Flag>)
    requires s.Call?
    ensures AllScoped(CallCode(p, s, flow, g), fs) <==> (!EmptyMethod(p, s.callee) ==> flow.exec in fs)
  {
    var code, out := CallCode(p, s, flow, g), ExitCode(flow, g);
    if code != [] {
      assert code == [code[0]] + [code[1]];
      ScopedConcat([code[0]], [code[1]], fs);
      ScopedOne(code[0], fs);
      ScopedOne(code[1], fs);
      ScopedOne(out, fs);
    }
  }

  lemma ScopedThrow(flow: Flow, g: Gen, fs: set<Flag>)
    requires flow.throwing.Some? ==> flow.exec in fs
    ensures AllScoped(ThrowCode(flow, g), fs)
  {
    var out := ExitCode(flow, g);
    var items := [CSetFlag(flow.exec), out];
    ScopedOne(ThrowCode(flow, g)[0], fs);
    assert items == [items[0]] + [out];
    ScopedConcat([items[0]], [out], fs);
    ScopedOne(items[0], fs);
    ScopedOne(out, fs);
  }

  lemma ScopedIf(p: Program, s: Stmt, flow: Flow, g: Gen, cs: seq<seq<CStmt>>, fs: set<Flag>)
    requires s.If? && |cs| == Arity(s)
    ensures AllScoped(Assemble(p, s, flow, g, cs), fs) <==> EachScoped(cs, fs)
  {
    if !s.cond.folded.Unknown? {
      ScopedConcatAll(cs, fs);
    } else {
      ScopedIfCode(OnStore(s.cond.test), cs[0], if s.els.NoElse? then None else Some(cs[1]), fs);
      assert EachScoped([], fs);
      if s.els.NoElse? {
        assert cs[1..] == [];
      } else {
        assert cs[1..][1..] == [] && cs[1..][0] == cs[1];
        assert EachScoped(cs[1..], fs) <==> AllScoped(cs[1], fs);
      }
    }
  }

  lemma ScopedInline(bind: Store -> Store, code: seq<CStmt>, copyOut: Store -> Store, fs: set<Flag>)
    ensures AllScoped([CBlock(None, [CDo(bind)] + code + [CDo(copyOut)])], fs) <==> AllScoped(code, fs)
  {
    ScopedOne(CBlock(None, [CDo(bind)] + code + [CDo(copyOut)]), fs);
    ScopedConcat([CDo(bind)] + code, [CDo(copyOut)], fs);
    ScopedConcat([CDo(bind)], code, fs);
    ScopedOne(CDo(bind), fs);
    ScopedOne(CDo(copyOut), fs);
  }

  /** A statement other than try and call uses the flags of its parts. */
  lemma ScopedAssemble(p: Program, s: Stmt, flow: Flow, g: Gen, cs: seq<seq<CStmt>>, fs: set<Flag>)
    requires !s.Try? && !s.Call? && |cs| == Arity(s)
    requires flow.throwing.Some? ==> flow.exec in fs
    ensures AllScoped(Assemble(p, s, flow, g, cs), fs) <==> EachScoped(cs, fs)
  {
    if |cs| == 1 {
      assert cs[1..] == [];
    }
    match s
    case Block(_) => ScopedList(cs, fs); ScopedOne(CBlock(None, Joined(Concat(cs))), fs);
    case Switch(sel, _) => ScopedList(cs, fs); ScopedOne(CSwitch(sel, Joined(Concat(cs))), fs);
    case If(_, _, _, _) => ScopedIf(p, s, flow, g, cs, fs);
    case While(guard, _, _) => ScopedLoopCode(IDENTITY, guard, IDENTITY, cs[0], fs);
    case For(init, test, update, _, _) => ScopedLoopCode(init, test, update, cs[0], fs);
    case Case(k, _) => ScopedConcat([CCase(k)], cs[0], fs); ScopedOne(CCase(k), fs);
    case Default(_) => ScopedConcat([CDefault], cs[0], fs); ScopedOne(CDefault, fs);
    case Labeled(_) =>
    case Inline(bind, _, _, copyOut) => if cs != [] { ScopedInline(bind, cs[0], copyOut, fs); }
    case Throw => ScopedThrow(flow, g, fs);
    case Do(act) => ScopedOne(CDo(act), fs);
    case Return => ScopedOne(CReturn(false), fs);
    case Break => ScopedOne(CBreak, fs);
    case Continue => ScopedOne(CContinue, fs);
  }

  lemma ScopedTry(flag: Flag, body: seq<CStmt>, l: Label, handler: seq<CStmt>, fs: set<Flag>)
    ensures AllScoped(TryCode(flag, body, l, handler), fs) <==>
            AllScoped(body, fs + {flag}) && AllScoped(handler, fs + {flag})
  {
    var test, inner := IfCode(OnFlag(flag), handler, None), fs + {flag};
    ScopedOne(TryCode(flag, body, l, handler)[0], fs);
    ScopedConcat(Joined(body), [CLabel(l)] + test, inner);
    ScopedJoined(body, inner);
    ScopedConcat([CLabel(l)], test, inner);
    ScopedOne(CLabel(l), inner);
    ScopedIfCode(OnFlag(flag), handler, None, inner);
  }

  // ----- the flags that are used are declared -----

  /** The text of a statement uses only flags that are declared if and only if the flag of the flow
      context is declared or not needed. */
  lemma {:induction false} EmitScoped(p: Program, s: Stmt, flow: Flow, cur: Table, g: Gen, fs: set<Flag>)
    requires flow.throwing.Some? ==> flow.exec in fs
    ensures AllScoped(Emit(p, s, flow, cur, g).code, fs) <==> (Needs(p, s, cur, flow.exec) ==> flow.exec in fs)
    decreases s, 1, 0
  {
    if s.Try? {
      var inner, inside := TryBodyTable(s, cur), Flow(cur, Some(cur));
      var g0, b := Gen(g.aliases[cur := g.next], g.next + 1), EmitTryBody(p, s, cur, g);
      var h := Emit(p, s.catchBody, flow, cur, b.gen);
      EmitScoped(p, s.tryBody, inside, inner, g0, fs + {cur});
      EmitScoped(p, s.catchBody, flow, cur, b.gen, fs + {cur});
      ScopedTry(cur, b.code, Alias(b.gen, cur), h.code, fs);
    } else if s.Call? {
      ScopedCall(p, s, flow, g, fs);
    } else {
      EmitPartsScoped(p, Parts(s, cur), s, flow, g, fs);
      ScopedAssemble(p, s, flow, g, EmitParts(p, Parts(s, cur), s, flow, g).0, fs);
    }
  }

  lemma {:induction false} EmitPartsScoped(p: Program, ps: seq<Part>, whole: Stmt, flow: Flow, g: Gen, fs: set<Flag>)
    requires (forall x <- ps :: x.stmt < whole) && (flow.throwing.Some? ==> flow.exec in fs)
    ensures EachScoped(EmitParts(p, ps, whole, flow, g).0, fs) <==> (AnyNeeds(p, ps, whole, flow.exec) ==> flow.exec in fs)
    decreases whole, 0, |ps|
  {
    if ps != [] {
      var e := Emit(p, ps[0].stmt, flow, ps[0].table, g);
      EmitScoped(p, ps[0].stmt, flow, ps[0].table, g, fs);
      EmitPartsScoped(p, ps[1..], whole, flow, e.gen, fs);
      var r := EmitParts(p, ps, whole, flow, g);
      assert r.0[0] == e.code && r.0[1..] == EmitParts(p, ps[1..], whole, flow, e.gen).0;
    }
  }

  /** A generated function uses only flags that it declares if and only if it declares its own or does
      not need the one of the flow context that was left over. */
  lemma FunctionScoped(p: Program, m: Method, stale: Flow, g: Gen)
    requires !IsEmpty(m.body) && stale.throwing.None?
    ensures AllScoped(EmitMethod(p, m, stale, g).code, {}) <==> HasExec(m) || !Needs(p, m.body, m.table, stale.exec)
  {
    hide Emit, HasExec, HasReturn, Needs;
    var flow, fs := if HasExec(m) then Flow(m.table, None) else stale, if HasExec(m) then {m.table} else {};
    var e := Emit(p, m.body, flow, m.table, g);
    EmitScoped(p, m.body, flow, m.table, g, fs);
    var entry := if HasReturn(m) then [CBlock(None, e.code + [CDo(IDENTITY)])] else e.code;
    var logic := if HasExec(m) then [CBlock(Some(m.table), entry)] else entry;
    ScopedConcat(e.code, [CDo(IDENTITY)], fs);
    ScopedOne(CDo(IDENTITY), fs);
    ScopedOne(CBlock(None, e.code + [CDo(IDENTITY)]), fs);
    assert {} + {m.table} == {m.table};
    ScopedOne(CBlock(Some(m.table), entry), {});
    ScopedOne(CBlock(None, logic), {});
    assert [CBlock(None, logic)] + [CReturn(false)] == [CBlock(None, logic), CReturn(false)];
    ScopedConcat([CBlock(None, logic)], [CReturn(false)], {});
    ScopedOne(CReturn(false), {});
    ScopedOne(CBlock(None, [CBlock(None, logic), CReturn(false)]), {});
  }

  /** So with a left-over flag that no try of the method declares: if and only if the method has a flag
      or emits no call whose exception could leave it. */
  lemma FlagsAreDeclared(p: Program, m: Method, stale: Flow, g: Gen)
    requires !IsEmpty(m.body) && stale.throwing.None? && !Clobbers(m.body, stale.exec, m.table)
    ensures AllScoped(EmitMethod(p, m, stale, g).code, {}) <==> HasExec(m) || !MayCall(p, m.body)
  {
    FunctionScoped(p, m, stale, g);
    NeedsIsMayCall(p, m.body, m.table, stale.exec);
  }
}
