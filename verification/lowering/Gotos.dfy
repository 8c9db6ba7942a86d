/** Every goto that is emitted finds its label further down in a block around it. */
module Gotos {
  import opened Common
  import opened Dml
  import opened CTarget
  import opened Emission
  import opened FlowControl
  import opened Labels

  /** Labels that stand directly in a statement list. */
  function TopLabels(items: seq<CStmt>): set<Label> {
    if items == [] then {}
    else (if items[0].CLabel? then {items[0].number} else {}) + TopLabels(items[1..])
  }

  /** Every goto in the text has its label further down in a block that encloses it, or among `avail`. */
  predicate Resolved(c: CStmt, avail: set<Label>)
    decreases c, 1
  {
    match c
    case CGoto(l) => l in avail
    case CBlock(_, items) => ResolvedIn(items, avail)
    case CSwitch(_, items) => ResolvedIn(items, avail)
    case CIf(_, thn, els) => Resolved(thn, avail) && (els.Some? ==> Resolved(els.value, avail))
    case CLoop(_, _, _, body) => Resolved(body, avail)
    case _ => true
  }

  predicate ResolvedIn(items: seq<CStmt>, avail: set<Label>)
    decreases items, 0
  {
    items != [] ==> Resolved(items[0], avail + TopLabels(items[1..])) && ResolvedIn(items[1..], avail)
  }

  /** A list without labels of its own, all of whose gotos go to `avail` or are resolved inside of it. */
  ghost predicate Sealed(items: seq<CStmt>, avail: set<Label>) {
    forall c <- items :: !c.CLabel? && Resolved(c, avail)
  }

  lemma {:induction false} ResolvedGrows(c: CStmt, a: set<Label>, b: set<Label>)
    requires Resolved(c, a) && a <= b
    ensures Resolved(c, b)
    decreases c, 1
  {
    match c
    case CBlock(_, items) => ResolvedInGrows(items, a, b);
    case CSwitch(_, items) => ResolvedInGrows(items, a, b);
    case CIf(_, thn, els) => ResolvedGrows(thn, a, b); if els.Some? { ResolvedGrows(els.value, a, b); }
    case CLoop(_, _, _, body) => ResolvedGrows(body, a, b);
    case _ =>
  }

  lemma {:induction false} ResolvedInGrows(items: seq<CStmt>, a: set<Label>, b: set<Label>)
    requires ResolvedIn(items, a) && a <= b
    ensures ResolvedIn(items, b)
    decreases items, 0
  {
    if items != [] {
      ResolvedGrows(items[0], a + TopLabels(items[1..]), b + TopLabels(items[1..]));
      ResolvedInGrows(items[1..], a, b);
    }
  }

  lemma TopLabelsConcat(a: seq<CStmt>, b: seq<CStmt>)
    ensures TopLabels(a + b) == TopLabels(a) + TopLabels(b)
  {
    if a == [] {
      assert a + b == b;
    } else {
      assert (a + b)[1..] == a[1..] + b;
      TopLabelsConcat(a[1..], b);
    }
  }

  /** A sealed list in front of a resolved one. */
  lemma {:induction false} SealedThen(items: seq<CStmt>, rest: seq<CStmt>, avail: set<Label>)
    requires Sealed(items, avail + TopLabels(rest)) && ResolvedIn(rest, avail)
    ensures ResolvedIn(items + rest, avail)
  {
    if items == [] {
      assert items + rest == rest;
    } else {
      assert (items + rest)[1..] == items[1..] + rest;
      SealedThen(items[1..], rest, avail);
      TopLabelsConcat(items[1..], rest);
      ResolvedGrows(items[0], avail + TopLabels(rest), avail + TopLabels(items[1..] + rest));
    }
  }

  lemma SealedIsResolved(items: seq<CStmt>, avail: set<Label>)
    requires Sealed(items, avail)
    ensures ResolvedIn(items, avail)
  {
    assert avail + TopLabels([]) == avail;
    SealedThen(items, [], avail);
    assert items + [] == items;
  }

  lemma AttachResolved(c: CStmt, e: CStmt, avail: set<Label>)
    requires Open(c) && Resolved(c, avail) && Resolved(e, avail)
    ensures Resolved(Attach(c, e), avail)
  {
  }

  lemma FillResolved(c: CStmt, e: CStmt, avail: set<Label>)
    requires Resolved(c, avail) && Resolved(e, avail)
    ensures Resolved(Fill(c, e), avail)
  {
  }

  lemma FillIsNoLabel(c: CStmt, e: CStmt)
    requires !c.CLabel? && !e.CLabel?
    ensures !Fill(c, e).CLabel?
  {
  }

  lemma JoinedSealed(items: seq<CStmt>, avail: set<Label>)
    requires Sealed(items, avail)
    ensures Sealed(Joined(items), avail)
  {
    if items != [] {
      JoinedSealed(items[1..], avail);
      var rest := Joined(items[1..]);
      if rest != [] {
        FillResolved(items[0], rest[0], avail);
        FillIsNoLabel(items[0], rest[0]);
      }
    }
  }

  lemma IfCodeSealed(test: CTest, thn: seq<CStmt>, els: Option<seq<CStmt>>, avail: set<Label>)
    requires Sealed(thn, avail) && (els.Some? ==> Sealed(els.value, avail))
    ensures Sealed(IfCode(test, thn, els), avail)
  {
    var head := [CIf(test, First(thn), None)] + Rest(thn);
    assert Sealed(head, avail);
    var last := head[|head| - 1];
    if els.Some? && Open(last) {
      AttachResolved(last, First(els.value), avail);
    }
  }

  lemma ConcatSealed(cs: seq<seq<CStmt>>, avail: set<Label>)
    requires forall c <- cs :: Sealed(c, avail)
    ensures Sealed(Concat(cs), avail)
  {
    if cs != [] {
      assert Sealed(cs[0], avail);
      ConcatSealed(cs[1..], avail);
    }
  }

  lemma ListSealed(cs: seq<seq<CStmt>>, avail: set<Label>)
    requires forall c <- cs :: Sealed(c, avail)
    ensures ResolvedIn(Joined(Concat(cs)), avail)
  {
    ConcatSealed(cs, avail);
    JoinedSealed(Concat(cs), avail);
    SealedIsResolved(Joined(Concat(cs)), avail);
  }

  /** The jump out of a statement goes to a label that is in reach. */
  predicate Reaches(flow: Flow, g: Gen, avail: set<Label>) {
    flow.throwing.Some? ==> Alias(g, flow.throwing.value) in avail
  }

  lemma LeafSealed(p: Program, s: Stmt, flow: Flow, g: Gen, avail: set<Label>)
    requires s.Do? || s.Call? || s.Throw? || s.Return? || s.Break? || s.Continue?
    requires Reaches(flow, g, avail)
    ensures Sealed(Assemble(p, s, flow, g, []), avail)
  {
    var out := ExitCode(flow, g);
    assert Resolved(out, avail);
    SealedIsResolved([out], avail);
    SealedIsResolved([CSetFlag(flow.exec), out], avail);
  }

  lemma AssembleSealed(p: Program, s: Stmt, flow: Flow, g: Gen, cs: seq<seq<CStmt>>, avail: set<Label>)
    requires !s.Try? && |cs| == Arity(s) && Reaches(flow, g, avail)
    requires forall c <- cs :: Sealed(c, avail)
    ensures Sealed(Assemble(p, s, flow, g, cs), avail)
  {
    if |cs| == 1 {
      assert Sealed(cs[0], avail);
    }
    match s
    case Block(_) => ListSealed(cs, avail);
    case Switch(_, _) => ListSealed(cs, avail);
    case If(c, _, _, els) =>
      if !c.folded.Unknown? {
        ConcatSealed(cs, avail);
      } else {
        IfCodeSealed(OnStore(c.test), cs[0], if els.NoElse? then None else Some(cs[1]), avail);
      }
    case While(_, _, _) =>
    case For(_, _, _, _, _) =>
    case Case(_, _) =>
    case Default(_) =>
    case Labeled(_) =>
    case Inline(bind, _, _, copyOut) =>
      if cs != [] {
        SealedIsResolved([CDo(bind)] + cs[0] + [CDo(copyOut)], avail);
      }
    case _ => LeafSealed(p, s, flow, g, avail);
  }

  lemma TryCodeSealed(flag: Flag, body: seq<CStmt>, l: Label, handler: seq<CStmt>, avail: set<Label>)
    requires Sealed(body, avail + {l}) && Sealed(handler, avail)
    ensures Sealed(TryCode(flag, body, l, handler), avail)
  {
    var rest := IfCode(OnFlag(flag), handler, None);
    var tail := [CLabel(l)] + rest;
    IfCodeSealed(OnFlag(flag), handler, None, avail);
    SealedIsResolved(rest, avail);
    assert tail[1..] == rest;
    NoTopLabels(rest, avail);
    assert avail + TopLabels(tail) == avail + {l};
    JoinedSealed(body, avail + {l});
    SealedThen(Joined(body), tail, avail);
  }

  lemma NoTopLabels(items: seq<CStmt>, avail: set<Label>)
    requires Sealed(items, avail)
    ensures TopLabels(items) == {}
    ensures forall l :: FindLabel(items, l) == |items|
  {
  }

  /** The gotos of a statement all reach their labels, given one for the handler in force. */
  lemma {:induction false} EmitSealed(p: Program, s: Stmt, flow: Flow, cur: Table, g: Gen, avail: set<Label>)
    requires Apart(s, cur) && Reaches(flow, g, avail)
    requires flow.throwing.Some? ==> !Clobbers(s, flow.throwing.value, cur)
    ensures Sealed(Emit(p, s, flow, cur, g).code, avail)
    decreases s, 1, 0
  {
    if s.Try? {
      var inner := TryBodyTable(s, cur);
      var g0, inside := Gen(g.aliases[cur := g.next], g.next + 1), Flow(cur, Some(cur));
      var b := EmitTryBody(p, s, cur, g);
      EmitKeeps(p, s.tryBody, inside, inner, g0, cur);
      EmitSealed(p, s.tryBody, inside, inner, g0, avail + {g.next});
      if flow.throwing.Some? {
        EmitKeeps(p, s.tryBody, inside, inner, g0, flow.throwing.value);
      }
      EmitSealed(p, s.catchBody, flow, cur, b.gen, avail);
      TryCodeSealed(cur, b.code, Alias(b.gen, cur), Emit(p, s.catchBody, flow, cur, b.gen).code, avail);
    } else {
      EmitPartsSealed(p, Parts(s, cur), s, flow, g, avail);
      AssembleSealed(p, s, flow, g, EmitParts(p, Parts(s, cur), s, flow, g).0, avail);
    }
  }

  lemma {:induction false} EmitPartsSealed(p: Program, ps: seq<Part>, whole: Stmt, flow: Flow, g: Gen, avail: set<Label>)
    requires (forall x <- ps :: x.stmt < whole) && AllApart(ps, whole) && Reaches(flow, g, avail)
    requires flow.throwing.Some? ==> !AnyClobbers(ps, whole, flow.throwing.value)
    ensures forall c <- EmitParts(p, ps, whole, flow, g).0 :: Sealed(c, avail)
    decreases whole, 0, |ps|
  {
    if ps != [] {
      var e := Emit(p, ps[0].stmt, flow, ps[0].table, g);
      if flow.throwing.Some? {
        EmitKeeps(p, ps[0].stmt, flow, ps[0].table, g, flow.throwing.value);
      }
      EmitSealed(p, ps[0].stmt, flow, ps[0].table, g, avail);
      EmitPartsSealed(p, ps[1..], whole, flow, e.gen, avail);
    }
  }

  lemma CountBraces(items: seq<CStmt>, decl: Option<Flag>, l: Label)
    ensures CountIn([CBlock(decl, items)], At(l)) == CountIn(items, At(l))
  {
    CountOne(CBlock(decl, items), At(l));
  }

  /** The frame of a function has no labels. */
  lemma FrameCount(p: Program, m: Method, stale: Flow, g: Gen, l: Label)
    requires !IsEmpty(m.body)
    ensures CountIn(EmitMethod(p, m, stale, g).code, At(l)) ==
            CountIn(Emit(p, m.body, if HasExec(m) then Flow(m.table, None) else stale, m.table, g).code, At(l))
  {
    hide Emit, HasExec, HasReturn;
    var e := Emit(p, m.body, if HasExec(m) then Flow(m.table, None) else stale, m.table, g);
    var entry := if HasReturn(m) then [CBlock(None, e.code + [CDo(IDENTITY)])] else e.code;
    var logic := if HasExec(m) then [CBlock(Some(m.table), entry)] else entry;
    CountSnoc(e.code, CDo(IDENTITY), At(l));
    CountBraces(e.code + [CDo(IDENTITY)], None, l);
    CountBraces(entry, Some(m.table), l);
    CountBraces(logic, None, l);
    assert [CBlock(None, logic)] + [CReturn(false)] == [CBlock(None, logic), CReturn(false)];
    CountSnoc([CBlock(None, logic)], CReturn(false), At(l));
    CountBraces([CBlock(None, logic), CReturn(false)], None, l);
  }

  /** In a generated function every goto has its label further down in a block around it, and no label
      stands there twice. */
  lemma MethodGotosResolved(p: Program, m: Method, stale: Flow, g: Gen)
    requires Apart(m.body, m.table) && stale.throwing.None?
    ensures ResolvedIn(EmitMethod(p, m, stale, g).code, {})
    ensures forall l :: CountIn(EmitMethod(p, m, stale, g).code, At(l)) <= 1
  {
    if IsEmpty(m.body) {
      assert EmitMethod(p, m, stale, g).code[1..] == [];
    } else {
      FunctionGotos(p, m, stale, g);
      var flow := if HasExec(m) then Flow(m.table, None) else stale;
      LabelsUniqueIffApart(p, m.body, flow, m.table, g);
      forall l ensures CountIn(EmitMethod(p, m, stale, g).code, At(l)) <= 1 {
        FrameCount(p, m, stale, g, l);
      }
    }
  }

  lemma FunctionGotos(p: Program, m: Method, stale: Flow, g: Gen)
    requires Apart(m.body, m.table) && stale.throwing.None? && !IsEmpty(m.body)
    ensures ResolvedIn(EmitMethod(p, m, stale, g).code, {})
  {
    var flow := if HasExec(m) then Flow(m.table, None) else stale;
    var e := Emit(p, m.body, flow, m.table, g);
    EmitSealed(p, m.body, flow, m.table, g, {});
    hide Emit, HasExec, HasReturn, Apart;
    SealedIsResolved(e.code, {});
    SealedIsResolved(e.code + [CDo(IDENTITY)], {});
    var entry := if HasReturn(m) then [CBlock(None, e.code + [CDo(IDENTITY)])] else e.code;
    SealedIsResolved(entry, {});
    var logic := if HasExec(m) then [CBlock(Some(m.table), entry)] else entry;
    SealedIsResolved(logic, {});
    SealedIsResolved([CBlock(None, logic), CReturn(false)], {});
    SealedIsResolved([CBlock(None, [CBlock(None, logic), CReturn(false)])], {});
  }
}
