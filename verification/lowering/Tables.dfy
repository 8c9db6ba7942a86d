/** Under which symbol table a try is translated: its flag is named after that table. */
module Tables {
  import opened Common
  import opened Dml
  import opened CTarget
  import opened Emission
  import opened Labels
  import opened TidyBodies

  /** How many tries of a statement stand under table x, where `cur` is the table around the statement:
      a branch, a `for` and an inlined method have tables of their own, the body of a `while` or a try
      has one if it is in braces, and conditions that fold leave one branch only. */
  function TriesUnder(s: Stmt, cur: Table, x: Table): nat
    decreases s, 1
  {
    match s
    case Try(t, body, handler) =>
      (if cur == x then 1 else 0) + TriesUnder(body, if body.Block? then t else cur, x) + TriesUnder(handler, cur, x)
    case While(_, t, body) => TriesUnder(body, if body.Block? then t else cur, x)
    case For(_, _, _, t, body) => TriesUnder(body, t, x)
    case If(c, t, thn, els) =>
      (if c.folded.IsFalse? then 0 else TriesUnder(thn, t, x)) +
      (if c.folded.IsTrue? then 0 else TriesElse(els, cur, c.folded.Unknown?, x))
    case Inline(_, t, body, _) => TriesUnder(body, t, x)
    case Block(ss) => TriesIn(ss, cur, x)
    case Switch(_, ss) => TriesIn(ss, cur, x)
    case Case(_, body) => TriesUnder(body, cur, x)
    case Default(body) => TriesUnder(body, cur, x)
    case Labeled(body) => TriesUnder(body, cur, x)
    case _ => 0
  }

  function TriesIn(ss: seq<Stmt>, cur: Table, x: Table): nat
    decreases ss, 0
  {
    if ss == [] then 0 else TriesUnder(ss[0], cur, x) + TriesIn(ss[1..], cur, x)
  }

  /** Behind `else` in a chain the table of the next `if` is current. */
  function TriesElse(els: Else, cur: Table, chained: bool, x: Table): nat
    decreases els, 0
  {
    match els
    case NoElse => 0
    case ElseIf(e) => TriesUnder(e, if chained && e.If? then e.thenTable else cur, x)
    case ElseBlock(t, e) => TriesUnder(e, t, x)
  }

  function PartsUnder(ps: seq<Part>, x: Table): nat {
    if ps == [] then 0 else TriesUnder(ps[0].stmt, ps[0].table, x) + PartsUnder(ps[1..], x)
  }

  lemma {:induction false} ListUnder(ss: seq<Stmt>, cur: Table, x: Table)
    ensures PartsUnder(ListParts(ss, cur), x) == TriesIn(ss, cur, x)
  {
    hide TriesUnder;
    if ss != [] {
      assert ListParts(ss, cur)[1..] == ListParts(ss[1..], cur);
      ListUnder(ss[1..], cur, x);
    }
  }

  lemma OneUnder(y: Part, x: Table)
    ensures PartsUnder([y], x) == TriesUnder(y.stmt, y.table, x)
  {
    assert [y][1..] == [];
  }

  lemma IfUnder(s: Stmt, cur: Table, x: Table)
    requires s.If?
    ensures PartsUnder(Parts(s, cur), x) == TriesUnder(s, cur, x)
  {
    var ps := Parts(s, cur);
    if |ps| == 1 {
      OneUnder(ps[0], x);
    } else if |ps| == 2 {
      OneUnder(ps[1], x);
      assert ps[1..] == [ps[1]];
    }
  }

  /** The parts of a statement have the tries of the statement. */
  lemma PartsOfStatement(s: Stmt, cur: Table, x: Table)
    requires !s.Try?
    ensures PartsUnder(Parts(s, cur), x) == TriesUnder(s, cur, x)
  {
    if s.Block? {
      ListUnder(s.stmts, cur, x);
    } else if s.Switch? {
      ListUnder(s.cases, cur, x);
    } else if s.If? {
      IfUnder(s, cur, x);
    } else {
      var ps := Parts(s, cur);
      assert |ps| <= 1 && (IsEmpty(s) || !s.Block?);
      forall y <- ps ensures PartsUnder(ps, x) == TriesUnder(y.stmt, y.table, x) {
        assert ps == [y];
        OneUnder(y, x);
      }
    }
  }

  /** The text of a statement declares a flag exactly as often as a try of the statement stands under
      the table of the flag. */
  lemma {:induction false} DeclaredFlags(p: Program, s: Stmt, flow: Flow, cur: Table, g: Gen, x: Table)
    ensures CountIn(Emit(p, s, flow, cur, g).code, Declares(x)) == TriesUnder(s, cur, x)
    decreases s, 1, 0
  {
    if s.Try? {
      DeclaredByTry(p, s, flow, cur, g, x);
    } else {
      var r := EmitParts(p, Parts(s, cur), s, flow, g);
      hide Assemble, TriesUnder, Parts, Joined;
      DeclaredByParts(p, Parts(s, cur), s, flow, g, x);
      CountAssemble(p, s, flow, g, r.0, Declares(x));
      PartsOfStatement(s, cur, x);
    }
  }

  lemma {:induction false} DeclaredByTry(p: Program, s: Stmt, flow: Flow, cur: Table, g: Gen, x: Table)
    requires s.Try?
    ensures CountIn(Emit(p, s, flow, cur, g).code, Declares(x)) == TriesUnder(s, cur, x)
    decreases s, 0, 0
  {
    var inner, inside := TryBodyTable(s, cur), Flow(cur, Some(cur));
    var g0, b := Gen(g.aliases[cur := g.next], g.next + 1), EmitTryBody(p, s, cur, g);
    var h := Emit(p, s.catchBody, flow, cur, b.gen);
    assert Emit(p, s, flow, cur, g) == Emitted(TryCode(cur, b.code, Alias(b.gen, cur), h.code), h.gen);
    assert b == Emit(p, s.tryBody, inside, inner, g0);
    hide Emit, EmitTryBody, TryCode, CountIn;
    CountTryCode(cur, b.code, Alias(b.gen, cur), h.code, Declares(x));
    DeclaredFlags(p, s.tryBody, inside, inner, g0, x);
    DeclaredFlags(p, s.catchBody, flow, cur, b.gen, x);
  }

  lemma {:induction false} DeclaredByParts(p: Program, ps: seq<Part>, whole: Stmt, flow: Flow, g: Gen, x: Table)
    requires forall y <- ps :: y.stmt < whole
    ensures CountInAll(EmitParts(p, ps, whole, flow, g).0, Declares(x)) == PartsUnder(ps, x)
    decreases whole, 0, |ps|
  {
    hide TriesUnder;
    if ps != [] {
      var e := Emit(p, ps[0].stmt, flow, ps[0].table, g);
      DeclaredFlags(p, ps[0].stmt, flow, ps[0].table, g, x);
      DeclaredByParts(p, ps[1..], whole, flow, e.gen, x);
      var r := EmitParts(p, ps, whole, flow, g);
      assert r.0[0] == e.code && r.0[1..] == EmitParts(p, ps[1..], whole, flow, e.gen).0;
    }
  }

  // ----- a try in the places that have a table of their own -----

  /** One statement, the block of a try under table x. */
  predicate TryBlock(code: seq<CStmt>, x: Table) {
    |code| == 1 && code[0].CBlock? && code[0].decl == Some(x)
  }

  /** The same in braces. */
  predicate BracedTry(c: CStmt, x: Table) {
    c.CBlock? && c.decl.None? && TryBlock(c.items, x)
  }

  lemma TryText(p: Program, s: Stmt, flow: Flow, cur: Table, g: Gen)
    requires s.Try?
    ensures TryBlock(Emit(p, s, flow, cur, g).code, cur)
    ensures var code := Emit(p, Block([s]), flow, cur, g).code; |code| == 1 && BracedTry(code[0], cur)
  {
    EmitTry(p, s, flow, cur, g);
    var x, body := Part(s, cur), Block([s]);
    assert ListParts([s], cur) == [x] && Parts(body, cur) == [x];
    EmitOne(p, x, body, flow, g);
    EmitAssembled(p, body, flow, cur, g);
    var code := Emit(p, s, flow, cur, g).code;
    hide Emit;
    assert code == [code[0]] && Joined(code) == code;
  }

  /** Of the body of a loop: a try in braces has the flag of the table of the loop; without braces
      that of the table around a `while`, and that of a `for`. */
  lemma TryInLoop(p: Program, guard: Store -> bool, init: Store -> Store, update: Store -> Store, t: Table, s: Stmt,
                  flow: Flow, cur: Table, g: Gen)
    requires s.Try?
    ensures var code := Emit(p, While(guard, t, Block([s])), flow, cur, g).code;
            |code| == 1 && code[0].CLoop? && BracedTry(code[0].body, t)
    ensures var code := Emit(p, While(guard, t, s), flow, cur, g).code;
            |code| == 1 && code[0].CLoop? && TryBlock([code[0].body], cur)
    ensures var code := Emit(p, For(init, guard, update, t, Block([s])), flow, cur, g).code;
            |code| == 1 && code[0].CLoop? && BracedTry(code[0].body, t)
    ensures var code := Emit(p, For(init, guard, update, t, s), flow, cur, g).code;
            |code| == 1 && code[0].CLoop? && TryBlock([code[0].body], t)
  {
    LoopBody(p, While(guard, t, Block([s])), Block([s]), t, flow, cur, g);
    LoopBody(p, While(guard, t, s), s, cur, flow, cur, g);
    LoopBody(p, For(init, guard, update, t, Block([s])), Block([s]), t, flow, cur, g);
    LoopBody(p, For(init, guard, update, t, s), s, t, flow, cur, g);
    TryText(p, s, flow, t, g);
    TryText(p, s, flow, cur, g);
    hide Emit;
  }

  lemma LoopBody(p: Program, loop: Stmt, body: Stmt, t: Table, flow: Flow, cur: Table, g: Gen)
    requires (loop.While? && loop.whileBody == body && t == if body.Block? then loop.whileTable else cur)
             || (loop.For? && loop.forBody == body && t == loop.forTable)
    ensures var code, inner := Emit(p, loop, flow, cur, g).code, Emit(p, body, flow, t, g).code;
            |inner| == 1 ==> |code| == 1 && code[0].CLoop? && code[0].body == inner[0]
  {
    EmitOne(p, Part(body, t), loop, flow, g);
    EmitAssembled(p, loop, flow, cur, g);
    hide Emit;
  }

  /** Of the branches of an `if`: a try in braces has the flag of the table of its branch. */
  lemma TryInBranch(p: Program, c: Store -> bool, t: Table, s: Stmt, u: Table, e: Stmt, flow: Flow, cur: Table, g: Gen)
    requires s.Try? && e.Try?
    ensures var code := Emit(p, If(Cond(c, Unknown), t, Block([s]), ElseBlock(u, Block([e]))), flow, cur, g).code;
            |code| == 1 && code[0].CIf? && BracedTry(code[0].thn, t) && code[0].els.Some? && BracedTry(code[0].els.value, u)
  {
    var whole := If(Cond(c, Unknown), t, Block([s]), ElseBlock(u, Block([e])));
    var x, y := Part(Block([s]), t), Part(Block([e]), u);
    EmitTwo(p, x, y, whole, flow, g);
    EmitAssembled(p, whole, flow, cur, g);
    TryText(p, s, flow, t, g);
    var thn := Emit(p, x.stmt, flow, t, g);
    TryText(p, e, flow, u, thn.gen);
    var els := Emit(p, y.stmt, flow, u, thn.gen).code;
    hide Emit, Attach;
    assert thn.code == [thn.code[0]] && [CIf(OnStore(c), thn.code[0], Some(els[0]))] + [] == [CIf(OnStore(c), thn.code[0], Some(els[0]))];
    SingleCode(OnStore(c), thn.code[0], els);
    hide IfCode;
  }

  /** The same where the condition folds. */
  lemma TryInFolded(p: Program, c: Store -> bool, t: Table, s: Stmt, u: Table, e: Stmt, flow: Flow, cur: Table, g: Gen)
    requires s.Try? && e.Try?
    ensures var code := Emit(p, If(Cond(c, IsTrue), t, Block([s]), ElseBlock(u, Block([e]))), flow, cur, g).code;
            |code| == 1 && BracedTry(code[0], t)
    ensures var code := Emit(p, If(Cond(c, IsFalse), t, Block([s]), ElseBlock(u, Block([e]))), flow, cur, g).code;
            |code| == 1 && BracedTry(code[0], u)
  {
    var first := If(Cond(c, IsTrue), t, Block([s]), ElseBlock(u, Block([e])));
    var second := If(Cond(c, IsFalse), t, Block([s]), ElseBlock(u, Block([e])));
    EmitOne(p, Part(Block([s]), t), first, flow, g);
    EmitOne(p, Part(Block([e]), u), second, flow, g);
    EmitAssembled(p, first, flow, cur, g);
    EmitAssembled(p, second, flow, cur, g);
    hide Emit, IfCode, Joined;
    TryText(p, s, flow, t, g);
    TryText(p, e, flow, u, g);
  }

  /** And in an inlined method that of the table of the method. */
  lemma TryInInlined(p: Program, bind: Store -> Store, t: Table, s: Stmt, copyOut: Store -> Store,
                     flow: Flow, cur: Table, g: Gen)
    requires s.Try?
    ensures var code := Emit(p, Inline(bind, t, Block([s]), copyOut), flow, cur, g).code;
            |code| == 1 && code[0].CBlock? && |code[0].items| == 3 && BracedTry(code[0].items[1], t)
  {
    var whole := Inline(bind, t, Block([s]), copyOut);
    EmitOne(p, Part(Block([s]), t), whole, flow, g);
    EmitAssembled(p, whole, flow, cur, g);
    TryText(p, s, flow, t, g);
    hide Emit;
  }
}
