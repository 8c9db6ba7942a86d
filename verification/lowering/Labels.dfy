/** Every goto that is emitted finds its label: where throw labels are unique and where they are not. */
module Labels {
  import opened Common
  import opened Dml
  import opened CTarget
  import opened Emission

  /** What is counted in a text: a label, or the blocks that declare a flag. */
  datatype Mark = At(number: Label) | Declares(flag: Flag)

  /** How often it occurs, at any depth. */
  function Count(c: CStmt, m: Mark): nat
    decreases c, 1
  {
    match c
    case CLabel(k) => if m == At(k) then 1 else 0
    case CBlock(decl, items) => (if decl.Some? && m == Declares(decl.value) then 1 else 0) + CountIn(items, m)
    case CSwitch(_, items) => CountIn(items, m)
    case CIf(_, thn, None) => Count(thn, m)
    case CIf(_, thn, Some(e)) => Count(thn, m) + Count(e, m)
    case CLoop(_, _, _, body) => Count(body, m)
    case _ => 0
  }

  function CountIn(items: seq<CStmt>, m: Mark): nat
    decreases items, 0
  {
    if items == [] then 0 else Count(items[0], m) + CountIn(items[1..], m)
  }

  // ----- which statements rename the throw symbol of a table -----

  /** Translating s with `cur` current gives the throw symbol of table t a new name. */
  predicate Clobbers(s: Stmt, t: Table, cur: Table)
    decreases s, 1, 0
  {
    if s.Try? then cur == t || Clobbers(s.tryBody, t, TryBodyTable(s, cur)) || Clobbers(s.catchBody, t, cur)
    else AnyClobbers(Parts(s, cur), s, t)
  }

  predicate AnyClobbers(ps: seq<Part>, whole: Stmt, t: Table)
    requires forall x <- ps :: x.stmt < whole
    decreases whole, 0, |ps|
  {
    ps != [] && (Clobbers(ps[0].stmt, t, ps[0].table) || AnyClobbers(ps[1..], whole, t))
  }

  /** No try body contains another try that is translated under the same table. */
  predicate Apart(s: Stmt, cur: Table)
    decreases s, 1, 0
  {
    if s.Try? then
      var inner := TryBodyTable(s, cur);
      !Clobbers(s.tryBody, cur, inner) && Apart(s.tryBody, inner) && Apart(s.catchBody, cur)
    else AllApart(Parts(s, cur), s)
  }

  predicate AllApart(ps: seq<Part>, whole: Stmt)
    requires forall x <- ps :: x.stmt < whole
    decreases whole, 0, |ps|
  {
    ps != [] ==> Apart(ps[0].stmt, ps[0].table) && AllApart(ps[1..], whole)
  }

  /** Emission keeps the throw symbols it does not clobber, and gives new numbers to those it does. */
  lemma {:induction false} EmitKeeps(p: Program, s: Stmt, flow: Flow, cur: Table, g: Gen, t: Table)
    ensures g.next <= Emit(p, s, flow, cur, g).gen.next
    ensures !Clobbers(s, t, cur) ==> Alias(Emit(p, s, flow, cur, g).gen, t) == Alias(g, t)
    ensures Clobbers(s, t, cur) ==> Alias(Emit(p, s, flow, cur, g).gen, t) >= g.next
    ensures Alias(g, t) < g.next ==> Alias(Emit(p, s, flow, cur, g).gen, t) < Emit(p, s, flow, cur, g).gen.next
    decreases s, 1, 0
  {
    if s.Try? {
      EmitTryKeeps(p, s, flow, cur, g, t);
    } else {
      hide Assemble, Parts;
      EmitPartsKeep(p, Parts(s, cur), s, flow, g, t);
    }
  }

  lemma {:induction false} EmitTryKeeps(p: Program, s: Stmt, flow: Flow, cur: Table, g: Gen, t: Table)
    requires s.Try?
    ensures g.next <= Emit(p, s, flow, cur, g).gen.next
    ensures !Clobbers(s, t, cur) ==> Alias(Emit(p, s, flow, cur, g).gen, t) == Alias(g, t)
    ensures Clobbers(s, t, cur) ==> Alias(Emit(p, s, flow, cur, g).gen, t) >= g.next
    ensures Alias(g, t) < g.next ==> Alias(Emit(p, s, flow, cur, g).gen, t) < Emit(p, s, flow, cur, g).gen.next
    decreases s, 0, 0
  {
    var inner, inside := TryBodyTable(s, cur), Flow(cur, Some(cur));
    var g0, b := Gen(g.aliases[cur := g.next], g.next + 1), EmitTryBody(p, s, cur, g);
    assert b == Emit(p, s.tryBody, inside, inner, g0);
    assert Emit(p, s, flow, cur, g).gen == Emit(p, s.catchBody, flow, cur, b.gen).gen;
    assert Clobbers(s, t, cur) <==> cur == t || Clobbers(s.tryBody, t, inner) || Clobbers(s.catchBody, t, cur);
    hide Emit, EmitTryBody, TryBodyTable, Clobbers;
    EmitKeeps(p, s.tryBody, inside, inner, g0, t);
    EmitKeeps(p, s.catchBody, flow, cur, b.gen, t);
  }

  lemma {:induction false} EmitPartsKeep(p: Program, ps: seq<Part>, whole: Stmt, flow: Flow, g: Gen, t: Table)
    requires forall x <- ps :: x.stmt < whole
    ensures g.next <= EmitParts(p, ps, whole, flow, g).1.next
    ensures !AnyClobbers(ps, whole, t) ==> Alias(EmitParts(p, ps, whole, flow, g).1, t) == Alias(g, t)
    ensures AnyClobbers(ps, whole, t) ==> Alias(EmitParts(p, ps, whole, flow, g).1, t) >= g.next
    ensures Alias(g, t) < g.next ==>
              Alias(EmitParts(p, ps, whole, flow, g).1, t) < EmitParts(p, ps, whole, flow, g).1.next
    decreases whole, 0, |ps|
  {
    if ps != [] {
      EmitKeeps(p, ps[0].stmt, flow, ps[0].table, g, t);
      EmitPartsKeep(p, ps[1..], whole, flow, Emit(p, ps[0].stmt, flow, ps[0].table, g).gen, t);
    }
  }

  // ----- the text combinators add no labels or declarations and drop none -----

  lemma CountConcat(a: seq<CStmt>, b: seq<CStmt>, m: Mark)
    ensures CountIn(a + b, m) == CountIn(a, m) + CountIn(b, m)
  {
    if a == [] {
      assert a + b == b;
    } else {
      assert (a + b)[1..] == a[1..] + b;
      CountConcat(a[1..], b, m);
    }
  }

  lemma CountSnoc(items: seq<CStmt>, c: CStmt, m: Mark)
    ensures CountIn(items + [c], m) == CountIn(items, m) + Count(c, m)
  {
    CountConcat(items, [c], m);
    assert [c][1..] == [];
  }

  lemma {:induction false} CountAttach(c: CStmt, e: CStmt, m: Mark)
    requires Open(c)
    ensures Count(Attach(c, e), m) == Count(c, m) + Count(e, m)
  {
    hide CountIn, Hole;
    match c
    case CIf(t, thn, None) =>
      assert Attach(c, e) == if Open(thn) then CIf(t, Attach(thn, e), None) else CIf(t, thn, Some(e));
      if Open(thn) {
        CountAttach(thn, e, m);
      }
      hide Open, Attach;
    case CIf(t, thn, Some(x)) =>
      assert Attach(c, e) == CIf(t, thn, Some(Attach(x, e)));
      CountAttach(x, e, m);
      hide Open, Attach;
    case CLoop(i, g, u, body) =>
      assert Attach(c, e) == CLoop(i, g, u, Attach(body, e));
      CountAttach(body, e, m);
      hide Open, Attach;
  }

  lemma {:induction false} CountFill(c: CStmt, e: CStmt, m: Mark)
    requires Hole(c)
    ensures Count(Fill(c, e), m) == Count(c, m) + Count(e, m)
  {
    hide CountIn;
    match c
    case CMissing =>
    case CIf(_, thn, None) =>
      CountFill(thn, e, m);
      hide Hole;
    case CIf(_, _, Some(x)) =>
      CountFill(x, e, m);
      hide Hole;
    case CLoop(_, _, _, body) =>
      CountFill(body, e, m);
      hide Hole;
  }

  lemma CountJoined(items: seq<CStmt>, m: Mark)
    ensures CountIn(Joined(items), m) == CountIn(items, m)
  {
    if items != [] {
      CountJoined(items[1..], m);
      var c, rest := items[0], Joined(items[1..]);
      CountOne(c, m);
      if rest == [] || !Hole(c) {
        CountConcat([c], rest, m);
      } else if rest[0].CCase? || rest[0].CDefault? || rest[0].CLabel? {
        CountConcat([c, CStray], rest, m);
        CountSnoc([c], CStray, m);
        assert [c] + [CStray] == [c, CStray];
      } else {
        CountFill(c, rest[0], m);
        CountConcat([Fill(c, rest[0])], rest[1..], m);
        CountOne(Fill(c, rest[0]), m);
      }
    }
  }

  lemma CountFirst(code: seq<CStmt>, m: Mark)
    ensures Count(First(code), m) + CountIn(Rest(code), m) == CountIn(code, m)
  {
  }

  lemma CountWithElse(items: seq<CStmt>, es: seq<CStmt>, m: Mark)
    ensures CountIn(WithElse(items, es), m) == CountIn(items, m) + CountIn(es, m)
  {
    if items != [] && Open(items[|items| - 1]) {
      var front, last := items[..|items| - 1], items[|items| - 1];
      assert items == front + [last];
      CountSnoc(front, last, m);
      CountSnoc(front, Attach(last, First(es)), m);
      CountAttach(last, First(es), m);
      CountFirst(es, m);
      CountConcat(front + [Attach(last, First(es))], Rest(es), m);
    } else {
      CountSnoc(items, CStray, m);
      CountConcat(items + [CStray], es, m);
    }
  }

  lemma CountIfCode(test: CTest, thn: seq<CStmt>, els: Option<seq<CStmt>>, m: Mark)
    ensures CountIn(IfCode(test, thn, els), m) ==
            CountIn(thn, m) + (if els.Some? then CountIn(els.value, m) else 0)
  {
    var head := [CIf(test, First(thn), None)] + Rest(thn);
    assert head[1..] == Rest(thn);
    CountFirst(thn, m);
    if els.Some? {
      CountWithElse(head, els.value, m);
    }
  }

  lemma CountLoopCode(init: Store -> Store, g: Store -> bool, update: Store -> Store, body: seq<CStmt>, m: Mark)
    ensures CountIn(LoopCode(init, g, update, body), m) == CountIn(body, m)
  {
    assert LoopCode(init, g, update, body)[1..] == Rest(body);
    CountFirst(body, m);
  }

  function CountInAll(cs: seq<seq<CStmt>>, m: Mark): nat {
    if cs == [] then 0 else CountIn(cs[0], m) + CountInAll(cs[1..], m)
  }

  lemma CountConcatAll(cs: seq<seq<CStmt>>, m: Mark)
    ensures CountIn(Concat(cs), m) == CountInAll(cs, m)
  {
    if cs != [] {
      CountConcat(cs[0], Concat(cs[1..]), m);
    }
  }

  lemma CountOne(c: CStmt, m: Mark)
    ensures CountIn([c], m) == Count(c, m)
  {
    assert [c][1..] == [];
  }

  lemma CountPair(a: CStmt, b: CStmt, m: Mark)
    ensures CountIn([a, b], m) == Count(a, m) + Count(b, m)
  {
    CountSnoc([a], b, m);
    CountOne(a, m);
    assert [a] + [b] == [a, b];
  }

  lemma CountCall(p: Program, s: Stmt, flow: Flow, g: Gen, m: Mark)
    requires s.Call?
    ensures CountIn(CallCode(p, s, flow, g), m) == 0
  {
    var code, out := CallCode(p, s, flow, g), ExitCode(flow, g);
    if code != [] {
      CountPair(code[0], code[1], m);
      CountOne(out, m);
      assert Count(CBlock(None, [out]), m) == CountIn([out], m) == 0;
    }
  }

  lemma CountThrow(flow: Flow, g: Gen, m: Mark)
    ensures CountIn(ThrowCode(flow, g), m) == 0
  {
    var code, out := ThrowCode(flow, g), ExitCode(flow, g);
    CountOne(code[0], m);
    if flow.throwing.Some? {
      CountPair(CSetFlag(flow.exec), out, m);
      assert Count(code[0], m) == CountIn([CSetFlag(flow.exec), out], m);
    }
  }

  lemma CountLeaf(p: Program, s: Stmt, flow: Flow, g: Gen, m: Mark)
    requires s.Do? || s.Call? || s.Throw? || s.Return? || s.Break? || s.Continue?
    ensures CountIn(Assemble(p, s, flow, g, []), m) == 0
  {
    hide ThrowCode, CallCode;
    var code := Assemble(p, s, flow, g, []);
    if s.Call? {
      CountCall(p, s, flow, g, m);
    } else if s.Throw? {
      CountThrow(flow, g, m);
    } else {
      CountOne(code[0], m);
    }
  }

  lemma CountIf(p: Program, s: Stmt, flow: Flow, g: Gen, cs: seq<seq<CStmt>>, m: Mark)
    requires s.If? && |cs| == Arity(s)
    ensures CountIn(Assemble(p, s, flow, g, cs), m) == CountInAll(cs, m)
  {
    if !s.cond.folded.Unknown? {
      CountConcatAll(cs, m);
    } else {
      CountIfCode(OnStore(s.cond.test), cs[0], if s.els.NoElse? then None else Some(cs[1]), m);
      assert |cs| == 2 ==> cs[1..] == [cs[1]] && CountInAll(cs[1..], m) == CountIn(cs[1], m);
      assert |cs| == 1 ==> cs[1..] == [];
    }
  }

  /** A statement other than try has the labels of its parts. */
  lemma CountAssemble(p: Program, s: Stmt, flow: Flow, g: Gen, cs: seq<seq<CStmt>>, m: Mark)
    requires !s.Try? && |cs| == Arity(s)
    ensures CountIn(Assemble(p, s, flow, g, cs), m) == CountInAll(cs, m)
  {
    if |cs| == 1 {
      assert cs[1..] == [];
    }
    match s
    case Block(_) =>
      CountConcatAll(cs, m);
      CountJoined(Concat(cs), m);
      CountOne(CBlock(None, Joined(Concat(cs))), m);
    case Switch(sel, _) =>
      CountConcatAll(cs, m);
      CountJoined(Concat(cs), m);
      CountOne(CSwitch(sel, Joined(Concat(cs))), m);
    case If(_, _, _, _) => CountIf(p, s, flow, g, cs, m);
    case While(guard, _, _) => CountLoopCode(IDENTITY, guard, IDENTITY, cs[0], m);
    case For(init, test, update, _, _) => CountLoopCode(init, test, update, cs[0], m);
    case Case(k, _) => CountConcat([CCase(k)], cs[0], m); CountOne(CCase(k), m);
    case Default(_) => CountConcat([CDefault], cs[0], m); CountOne(CDefault, m);
    case Labeled(_) =>
    case Inline(bind, _, _, copyOut) =>
      if cs != [] {
        CountConcat([CDo(bind)], cs[0], m);
        CountOne(CDo(bind), m);
        CountSnoc([CDo(bind)] + cs[0], CDo(copyOut), m);
        CountOne(CBlock(None, [CDo(bind)] + cs[0] + [CDo(copyOut)]), m);
      }
    case _ => CountLeaf(p, s, flow, g, m);
  }

  lemma CountTryCode(flag: Flag, body: seq<CStmt>, k: Label, handler: seq<CStmt>, m: Mark)
    ensures CountIn(TryCode(flag, body, k, handler), m) ==
            CountIn(body, m) + (if m == At(k) then 1 else 0) + (if m == Declares(flag) then 1 else 0) + CountIn(handler, m)
  {
    var rest := IfCode(OnFlag(flag), handler, None);
    CountOne(TryCode(flag, body, k, handler)[0], m);
    CountJoined(body, m);
    CountConcat(Joined(body), [CLabel(k)] + rest, m);
    CountConcat([CLabel(k)], rest, m);
    CountOne(CLabel(k), m);
    CountIfCode(OnFlag(flag), handler, None, m);
  }

  // ----- labels are unique exactly when tries keep apart -----

  lemma {:induction false} ApartLabels(p: Program, s: Stmt, flow: Flow, cur: Table, g: Gen, l: Label)
    requires Apart(s, cur)
    ensures var e := Emit(p, s, flow, cur, g);
            CountIn(e.code, At(l)) <= (if g.next <= l < e.gen.next then 1 else 0)
    decreases s, 1, 0
  {
    EmitKeeps(p, s, flow, cur, g, cur);
    if s.Try? {
      ApartTryLabels(p, s, flow, cur, g, l);
    } else {
      ApartPartsLabels(p, Parts(s, cur), s, flow, g, l);
      CountAssemble(p, s, flow, g, EmitParts(p, Parts(s, cur), s, flow, g).0, At(l));
    }
  }

  lemma {:induction false} ApartTryLabels(p: Program, s: Stmt, flow: Flow, cur: Table, g: Gen, l: Label)
    requires s.Try? && Apart(s, cur)
    ensures var e := Emit(p, s, flow, cur, g);
            CountIn(e.code, At(l)) <= (if g.next <= l < e.gen.next then 1 else 0)
    decreases s, 0, 0
  {
    var inner := TryBodyTable(s, cur);
    var g0, inside := Gen(g.aliases[cur := g.next], g.next + 1), Flow(cur, Some(cur));
    var b := EmitTryBody(p, s, cur, g);
    var h := Emit(p, s.catchBody, flow, cur, b.gen);
    assert Emit(p, s, flow, cur, g) == Emitted(TryCode(cur, b.code, Alias(b.gen, cur), h.code), h.gen);
    assert b == Emit(p, s.tryBody, inside, inner, g0);
    hide Emit, EmitTryBody, TryCode, CountIn;
    EmitKeeps(p, s.tryBody, inside, inner, g0, cur);
    EmitKeeps(p, s.catchBody, flow, cur, b.gen, cur);
    ApartLabels(p, s.tryBody, inside, inner, g0, l);
    ApartLabels(p, s.catchBody, flow, cur, b.gen, l);
    CountTryCode(cur, b.code, Alias(b.gen, cur), h.code, At(l));
  }

  lemma {:induction false} ApartPartsLabels(p: Program, ps: seq<Part>, whole: Stmt, flow: Flow, g: Gen, l: Label)
    requires (forall x <- ps :: x.stmt < whole) && AllApart(ps, whole)
    ensures var r := EmitParts(p, ps, whole, flow, g);
            CountInAll(r.0, At(l)) <= (if g.next <= l < r.1.next then 1 else 0)
    decreases whole, 0, |ps|
  {
    if ps != [] {
      var e := Emit(p, ps[0].stmt, flow, ps[0].table, g);
      EmitKeeps(p, ps[0].stmt, flow, ps[0].table, g, 0);
      EmitPartsKeep(p, ps[1..], whole, flow, e.gen, 0);
      ApartLabels(p, ps[0].stmt, flow, ps[0].table, g, l);
      ApartPartsLabels(p, ps[1..], whole, flow, e.gen, l);
      var r := EmitParts(p, ps, whole, flow, g);
      assert r.0[0] == e.code && r.0[1..] == EmitParts(p, ps[1..], whole, flow, e.gen).0;
    }
  }

  /** The last name that a table's throw symbol got inside of a statement is the name of a label in its text. */
  lemma {:induction false} ClobberedLabel(p: Program, s: Stmt, flow: Flow, cur: Table, g: Gen, t: Table)
    requires Clobbers(s, t, cur)
    ensures var e := Emit(p, s, flow, cur, g); CountIn(e.code, At(Alias(e.gen, t))) >= 1
    decreases s, 1, 0
  {
    if s.Try? {
      ClobberedTryLabel(p, s, flow, cur, g, t);
    } else {
      ClobberedPartsLabel(p, Parts(s, cur), s, flow, g, t);
      var r := EmitParts(p, Parts(s, cur), s, flow, g);
      CountAssemble(p, s, flow, g, r.0, At(Alias(r.1, t)));
    }
  }

  lemma {:induction false} ClobberedTryLabel(p: Program, s: Stmt, flow: Flow, cur: Table, g: Gen, t: Table)
    requires s.Try? && Clobbers(s, t, cur)
    ensures var e := Emit(p, s, flow, cur, g); CountIn(e.code, At(Alias(e.gen, t))) >= 1
    decreases s, 0, 0
  {
    var inner, inside := TryBodyTable(s, cur), Flow(cur, Some(cur));
    var g0, b := Gen(g.aliases[cur := g.next], g.next + 1), EmitTryBody(p, s, cur, g);
    var h := Emit(p, s.catchBody, flow, cur, b.gen);
    assert Emit(p, s, flow, cur, g) == Emitted(TryCode(cur, b.code, Alias(b.gen, cur), h.code), h.gen);
    assert b == Emit(p, s.tryBody, inside, inner, g0);
    hide Emit, EmitTryBody, TryCode, CountIn;
    CountTryCode(cur, b.code, Alias(b.gen, cur), h.code, At(Alias(h.gen, t)));
    if Clobbers(s.catchBody, t, cur) {
      ClobberedLabel(p, s.catchBody, flow, cur, b.gen, t);
    } else {
      EmitKeeps(p, s.catchBody, flow, cur, b.gen, t);
      if Clobbers(s.tryBody, t, inner) {
        ClobberedLabel(p, s.tryBody, inside, inner, g0, t);
      }
    }
  }

  lemma {:induction false} ClobberedPartsLabel(p: Program, ps: seq<Part>, whole: Stmt, flow: Flow, g: Gen, t: Table)
    requires (forall x <- ps :: x.stmt < whole) && AnyClobbers(ps, whole, t)
    ensures var r := EmitParts(p, ps, whole, flow, g); CountInAll(r.0, At(Alias(r.1, t))) >= 1
    decreases whole, 0, |ps|
  {
    var e := Emit(p, ps[0].stmt, flow, ps[0].table, g);
    var r := EmitParts(p, ps, whole, flow, g);
    assert r.0[0] == e.code && r.0[1..] == EmitParts(p, ps[1..], whole, flow, e.gen).0;
    if AnyClobbers(ps[1..], whole, t) {
      ClobberedPartsLabel(p, ps[1..], whole, flow, e.gen, t);
    } else {
      EmitPartsKeep(p, ps[1..], whole, flow, e.gen, t);
      ClobberedLabel(p, ps[0].stmt, flow, ps[0].table, g, t);
    }
  }

  lemma {:induction false} SharedLabel(p: Program, s: Stmt, flow: Flow, cur: Table, g: Gen) returns (l: Label)
    requires !Apart(s, cur)
    ensures CountIn(Emit(p, s, flow, cur, g).code, At(l)) >= 2
    decreases s, 1, 0
  {
    if s.Try? {
      var inner := TryBodyTable(s, cur);
      var g0, inside := Gen(g.aliases[cur := g.next], g.next + 1), Flow(cur, Some(cur));
      var b := EmitTryBody(p, s, cur, g);
      if Clobbers(s.tryBody, cur, inner) {
        l := Alias(b.gen, cur);
        ClobberedLabel(p, s.tryBody, inside, inner, g0, cur);
      } else if !Apart(s.tryBody, inner) {
        l := SharedLabel(p, s.tryBody, inside, inner, g0);
      } else {
        l := SharedLabel(p, s.catchBody, flow, cur, b.gen);
      }
      CountTryCode(cur, b.code, Alias(b.gen, cur), Emit(p, s.catchBody, flow, cur, b.gen).code, At(l));
    } else {
      l := SharedPartsLabel(p, Parts(s, cur), s, flow, g);
      CountAssemble(p, s, flow, g, EmitParts(p, Parts(s, cur), s, flow, g).0, At(l));
    }
  }

  lemma {:induction false} SharedPartsLabel(p: Program, ps: seq<Part>, whole: Stmt, flow: Flow, g: Gen)
    returns (l: Label)
    requires (forall x <- ps :: x.stmt < whole) && !AllApart(ps, whole)
    ensures CountInAll(EmitParts(p, ps, whole, flow, g).0, At(l)) >= 2
    decreases whole, 0, |ps|
  {
    var e := Emit(p, ps[0].stmt, flow, ps[0].table, g);
    var r := EmitParts(p, ps, whole, flow, g);
    assert r.0[0] == e.code && r.0[1..] == EmitParts(p, ps[1..], whole, flow, e.gen).0;
    if !Apart(ps[0].stmt, ps[0].table) {
      l := SharedLabel(p, ps[0].stmt, flow, ps[0].table, g);
    } else {
      l := SharedPartsLabel(p, ps[1..], whole, flow, e.gen);
    }
  }

  /** No label stands twice in the text of a statement if and only if no try body holds another try
      that is translated under the same symbol table. */
  lemma LabelsUniqueIffApart(p: Program, s: Stmt, flow: Flow, cur: Table, g: Gen)
    ensures (forall l :: CountIn(Emit(p, s, flow, cur, g).code, At(l)) <= 1) <==> Apart(s, cur)
  {
    if Apart(s, cur) {
      forall l ensures CountIn(Emit(p, s, flow, cur, g).code, At(l)) <= 1 {
        ApartLabels(p, s, flow, cur, g, l);
      }
    } else {
      var l := SharedLabel(p, s, flow, cur, g);
    }
  }

  // ----- what the grammar gives: compound try bodies under tables of their own -----

  /** Every try body is compound, and a table that comes with a part differs from all tables around it. */
  predicate Compound(s: Stmt, cur: Table, around: set<Table>)
    decreases s, 1, 0
  {
    if s.Try? then
      && s.tryBody.Block? && s.tryTable != cur && s.tryTable !in around
      && Compound(s.tryBody, s.tryTable, around + {cur}) && Compound(s.catchBody, cur, around)
    else AllCompound(Parts(s, cur), s, cur, around)
  }

  predicate AllCompound(ps: seq<Part>, whole: Stmt, cur: Table, around: set<Table>)
    requires forall x <- ps :: x.stmt < whole
    decreases whole, 0, |ps|
  {
    ps != [] ==>
      && (ps[0].table == cur || ps[0].table !in around)
      && Compound(ps[0].stmt, ps[0].table, if ps[0].table == cur then around else around + {cur})
      && AllCompound(ps[1..], whole, cur, around)
  }

  lemma {:induction false} CompoundSpares(s: Stmt, cur: Table, around: set<Table>, t: Table)
    requires Compound(s, cur, around) && t in around && t != cur
    ensures !Clobbers(s, t, cur)
    decreases s, 1, 0
  {
    if s.Try? {
      CompoundSpares(s.tryBody, s.tryTable, around + {cur}, t);
      CompoundSpares(s.catchBody, cur, around, t);
    } else {
      AllCompoundSpare(Parts(s, cur), s, cur, around, t);
    }
  }

  lemma {:induction false} AllCompoundSpare(ps: seq<Part>, whole: Stmt, cur: Table, around: set<Table>, t: Table)
    requires (forall x <- ps :: x.stmt < whole) && AllCompound(ps, whole, cur, around) && t in around && t != cur
    ensures !AnyClobbers(ps, whole, t)
    decreases whole, 0, |ps|
  {
    if ps != [] {
      CompoundSpares(ps[0].stmt, ps[0].table, if ps[0].table == cur then around else around + {cur}, t);
      AllCompoundSpare(ps[1..], whole, cur, around, t);
    }
  }

  /** Compound try bodies keep tries apart. */
  lemma {:induction false} CompoundIsApart(s: Stmt, cur: Table, around: set<Table>)
    requires Compound(s, cur, around)
    ensures Apart(s, cur)
    decreases s, 1, 0
  {
    if s.Try? {
      CompoundSpares(s.tryBody, s.tryTable, around + {cur}, cur);
      CompoundIsApart(s.tryBody, s.tryTable, around + {cur});
      CompoundIsApart(s.catchBody, cur, around);
    } else {
      AllCompoundApart(Parts(s, cur), s, cur, around);
    }
  }

  lemma {:induction false} AllCompoundApart(ps: seq<Part>, whole: Stmt, cur: Table, around: set<Table>)
    requires (forall x <- ps :: x.stmt < whole) && AllCompound(ps, whole, cur, around)
    ensures AllApart(ps, whole)
    decreases whole, 0, |ps|
  {
    if ps != [] {
      CompoundIsApart(ps[0].stmt, ps[0].table, if ps[0].table == cur then around else around + {cur});
      AllCompoundApart(ps[1..], whole, cur, around);
    }
  }
}
