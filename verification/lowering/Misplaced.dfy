/** Branches and bodies without braces that C attaches elsewhere: which source their text stands for,
    and exactly when that makes a difference. */
module Misplaced {
  import opened Common
  import opened Dml
  import opened CTarget
  import opened FlowControl
  import opened Emission
  import opened Labels
  import opened Scopes
  import opened TidyBodies
  import opened StaleFlags
  import opened Simulation

  // ----- an else behind a call -----

  lemma CallHasTest(p: Program, call: Stmt, flow: Flow, g: Gen)
    requires call.Call? && !EmptyMethod(p, call.callee)
    ensures var code := CallCode(p, call, flow, g);
            code == [CCall(flow.exec, call.callee, call.enter, call.leave),
                     CIf(OnFlag(flow.exec), CBlock(None, [ExitCode(flow, g)]), None)]
  {
  }

  /** The text of a call as branch, with an else and without. */
  lemma JoinedElse(p: Program, c: Store -> bool, call: Stmt, t: Table, e: Stmt, flow: Flow, cur: Table, g: Gen)
    requires call.Call? && !EmptyMethod(p, call.callee)
    ensures var s, alone := If(Cond(c, Unknown), t, call, ElseBlock(cur, e)), If(Cond(c, Unknown), t, call, NoElse);
            var code, test := CallCode(p, call, flow, g), CIf(OnFlag(flow.exec), CBlock(None, [ExitCode(flow, g)]), None);
            var head, e0 := CIf(OnStore(c), code[0], None), Emit(p, e, flow, cur, g).code;
            && Emit(p, alone, flow, cur, g) == Emitted([head, test], g)
            && Emit(p, s, flow, cur, g).code == [head, CIf(test.cond, test.thn, Some(First(e0)))] + Rest(e0)
  {
    hide Emit;
    var s, alone := If(Cond(c, Unknown), t, call, ElseBlock(cur, e)), If(Cond(c, Unknown), t, call, NoElse);
    EmitLeaf(p, call, flow, t, g);
    EmitCallGen(p, call, flow, t, g);
    CallHasTest(p, call, flow, g);
    EmitTwo(p, Part(call, t), Part(e, cur), s, flow, g);
    EmitOne(p, Part(call, t), alone, flow, g);
    EmitAssembled(p, s, flow, cur, g);
    EmitAssembled(p, alone, flow, cur, g);
    var code := CallCode(p, call, flow, g);
    var items := [CIf(OnStore(c), code[0], None)] + [code[1]];
    assert Rest(code) == [code[1]];
    assert items[..1] == [CIf(OnStore(c), code[0], None)];
  }

  lemma EmitCallGen(p: Program, call: Stmt, flow: Flow, cur: Table, g: Gen)
    requires call.Call?
    ensures Emit(p, call, flow, cur, g).gen == g
  {
  }

  /** A test that leaves, with an else and with the same text behind it. */
  lemma ElseIsNext(cp: CProgram, flow: Flow, g: Gen, e: seq<CStmt>, st: Store, f: Flags, fuel: nat)
    requires e != []
    ensures var test, out := OnFlag(flow.exec), CBlock(None, [ExitCode(flow, g)]);
            CExecSeq(cp, [CIf(test, out, Some(e[0]))] + e[1..], st, f, fuel) ==
            CExecSeq(cp, [CIf(test, out, None)] + e, st, f, fuel)
  {
    var test, out, exit := OnFlag(flow.exec), CBlock(None, [ExitCode(flow, g)]), ExitCode(flow, g);
    BlockWithoutLabels(cp, [exit], 0, st, f, fuel);
    SeqOne(cp, exit, st, f, fuel);
    assert CExec(cp, out, st, f, fuel) == CExec(cp, exit, st, f, fuel);
    var a, b := [CIf(test, out, Some(e[0]))] + e[1..], [CIf(test, out, None)] + e;
    assert a[1..] == e[1..] && b[1..] == e;
  }

  /** The text of `if (c) call else e` means `if (c) call; e`: an else behind a call without braces runs
      unless an exception has been thrown. */
  lemma ElseRunsAnyway(p: Program, cp: CProgram, c: Store -> bool, call: Stmt, t: Table, e: Stmt,
                       flow: Flow, cur: Table, g: Gen, st: Store, f: Flags, fuel: nat)
    requires call.Call? && !EmptyMethod(p, call.callee) && Emit(p, e, flow, cur, g).code != []
    ensures var s, alone := If(Cond(c, Unknown), t, call, ElseBlock(cur, e)), If(Cond(c, Unknown), t, call, NoElse);
            CExecSeq(cp, Emit(p, s, flow, cur, g).code, st, f, fuel) ==
            CExecSeq(cp, Emit(p, alone, flow, cur, g).code + Emit(p, e, flow, cur, g).code, st, f, fuel)
  {
    hide Emit, CExec;
    JoinedElse(p, c, call, t, e, flow, cur, g);
    var test, out := OnFlag(flow.exec), CBlock(None, [ExitCode(flow, g)]);
    var head, code := CIf(OnStore(c), CallCode(p, call, flow, g)[0], None), Emit(p, e, flow, cur, g).code;
    var a, b := [CIf(test, out, Some(code[0]))] + code[1..], [CIf(test, out, None)] + code;
    assert [head, a[0]] + code[1..] == [head] + a && [head, b[0]] + code == [head] + b;
    assert ([head] + a)[1..] == a && ([head] + b)[1..] == b;
    var r := CExec(cp, head, st, f, fuel);
    if r.Some? && r.value.outcome == CNormal {
      ElseIsNext(cp, flow, g, code, r.value.store, r.value.flags, fuel);
    }
  }

  lemma PairCode(p: Program, a: Stmt, b: Stmt, whole: Stmt, flow: Flow, cur: Table, g: Gen)
    requires a < whole && b < whole
    ensures ListCode(p, [a, b], whole, flow, cur, g) ==
            Emit(p, a, flow, cur, g).code + Emit(p, b, flow, cur, Emit(p, a, flow, cur, g).gen).code
  {
    hide Emit, ListCode;
    var e := Emit(p, a, flow, cur, g);
    ListStepCode(p, [a, b], whole, flow, cur, g);
    assert [a, b][1..] == [b] && [b][1..] == [];
    ListStepCode(p, [b], whole, flow, cur, e.gen);
    var d := Emit(p, b, flow, cur, e.gen);
    EmptyList(p, whole, flow, cur, d.gen);
    assert d.code + [] == d.code;
  }

  lemma RunsOfBoth(p: Program, c: Store -> bool, call: Stmt, t: Table, e: Stmt, cur: Table, st: Store, fuel: nat)
    requires call.Call?
    ensures var s, ss := If(Cond(c, Unknown), t, call, ElseBlock(cur, e)), [If(Cond(c, Unknown), t, call, NoElse), e];
            var called := Exec(p, call, st, fuel);
            && (called.Some? ==> called.value.outcome == Normal || called.value.outcome == Thrown)
            && (Exec(p, s, st, fuel) == ExecSeq(p, ss, st, fuel) <==>
                !c(st) || !Ended(called, Normal) || Exec(p, e, called.value.store, fuel) == called)
  {
    var s, alone := If(Cond(c, Unknown), t, call, ElseBlock(cur, e)), If(Cond(c, Unknown), t, call, NoElse);
    assert [alone, e][1..] == [e];
    CallEnds(p, call, st, fuel);
    hide Exec;
    ExecOfIf(p, s, st, fuel);
    ExecOfIf(p, alone, st, fuel);
    var r := Exec(p, alone, st, fuel);
    if Ended(r, Normal) {
      ExecSingle(p, e, r.value.store, fuel);
    }
  }

  lemma CallEnds(p: Program, call: Stmt, st: Store, fuel: nat)
    requires call.Call?
    ensures var called := Exec(p, call, st, fuel);
            called.Some? ==> called.value.outcome == Normal || called.value.outcome == Thrown
  {
  }

  /** Hence it agrees with the source on a run exactly where the condition is false, the call throws,
      or the else does nothing after the call. */
  lemma {:induction false} UnbracedCallTakesElse(p: Program, cp: CProgram, c: Store -> bool, call: Stmt, t: Table, e: Stmt,
                                                 flow: Flow, cur: Table, g: Gen, st: Store, f: Flags, fuel: nat)
    requires call.Call? && !EmptyMethod(p, call.callee) && !FormOf(p, e).Nothing?
    requires var both := Block([If(Cond(c, Unknown), t, call, NoElse), e]);
             && Compiled(p, cp) && Tidy(p, both) && Apart(both, cur) && Ready(p, both, flow, cur, g, f, true)
             && Steady(p, both, flow.exec, cur, true)
    ensures var s, ss := If(Cond(c, Unknown), t, call, ElseBlock(cur, e)), [If(Cond(c, Unknown), t, call, NoElse), e];
            var called := Exec(p, call, st, fuel);
            && Matches(flow, Alias(g, flow.exec), f, true, true, ExecSeq(p, ss, st, fuel),
                       CExecSeq(cp, Emit(p, s, flow, cur, g).code, st, f, fuel))
            && (Exec(p, s, st, fuel) == ExecSeq(p, ss, st, fuel) <==>
                !c(st) || !Ended(called, Normal) || Exec(p, e, called.value.store, fuel) == called)
  {
    var s, alone := If(Cond(c, Unknown), t, call, ElseBlock(cur, e)), If(Cond(c, Unknown), t, call, NoElse);
    var ss := [alone, e];
    var both := Block(ss);
    RunsOfBoth(p, c, call, t, e, cur, st, fuel);
    assert ss[1] == e && Tidy(p, e);
    hide Exec, ExecSeq, CExecSeq, Matches;
    BlockIsList(p, both, flow, cur, g, f, true);
    SimSeq(p, cp, ss, both, flow, cur, g, st, f, true, fuel);
    hide Emit, Tidy, FormOf;
    JoinedElse(p, c, call, t, e, flow, cur, g);
    PairCode(p, alone, e, both, flow, cur, g);
    EmitShape(p, e, flow, cur, g);
    ElseRunsAnyway(p, cp, c, call, t, e, flow, cur, g, st, f, fuel);
  }

  // ----- branches and bodies without text -----

  /** A tidy statement without text does nothing. */
  lemma {:induction false} NothingEmitted(p: Program, s: Stmt, flow: Flow, cur: Table, g: Gen)
    requires Tidy(p, s) && FormOf(p, s).Nothing?
    ensures Emit(p, s, flow, cur, g) == Emitted([], g)
    decreases s, 1
  {
    match s
    case Labeled(body) => EmitOne(p, Part(body, cur), s, flow, g); NothingEmitted(p, body, flow, cur, g);
    case If(_, _, _, _) => NoBranchEmitted(p, s, flow, cur, g);
    case _ =>
  }

  lemma {:induction false} NoBranchEmitted(p: Program, s: Stmt, flow: Flow, cur: Table, g: Gen)
    requires s.If? && Tidy(p, s) && FormOf(p, s).Nothing?
    ensures Emit(p, s, flow, cur, g) == Emitted([], g)
    decreases s, 0
  {
    hide Emit;
    EmitAssembled(p, s, flow, cur, g);
    if s.cond.folded.IsTrue? {
      EmitOne(p, Part(s.thn, s.thenTable), s, flow, g);
      NothingEmitted(p, s.thn, flow, s.thenTable, g);
    } else {
      match s.els {
        case NoElse => assert Parts(s, cur) == [];
        case ElseIf(e) => EmitOne(p, Part(e, cur), s, flow, g); NothingEmitted(p, e, flow, cur, g);
        case ElseBlock(t, e) => EmitOne(p, Part(e, t), s, flow, g); NothingEmitted(p, e, flow, t, g);
      }
    }
  }

  lemma {:induction false} NothingRuns(p: Program, s: Stmt, st: Store, fuel: nat)
    requires Tidy(p, s) && FormOf(p, s).Nothing?
    ensures Exec(p, s, st, fuel) == Some(Run(Normal, st))
  {
    match s
    case Labeled(body) => NothingRuns(p, body, st, fuel);
    case If(c, _, thn, els) =>
      if c.folded.IsTrue? {
        NothingRuns(p, thn, st, fuel);
      } else {
        match els {
          case NoElse =>
          case ElseIf(e) => NothingRuns(p, e, st, fuel);
          case ElseBlock(_, e) => NothingRuns(p, e, st, fuel);
        }
      }
    case Inline(bind, _, body, copyOut) => assert Exec(p, body, bind(st), fuel) == Some(Run(Normal, bind(st)));
    case _ =>
  }

  lemma FilledHole(h: CStmt, e: CStmt)
    requires Hole(h)
    ensures Hole(Fill(h, e)) == Hole(e) && !Fill(h, e).CLabel? == !(h.CMissing? && e.CLabel?)
  {
  }

  /** The head takes the first statement of the text behind it. */
  lemma JoinNext(h: CStmt, code: seq<CStmt>, rest: seq<CStmt>)
    requires Hole(h) && code != [] && !Hole(code[0])
    requires !code[0].CCase? && !code[0].CDefault? && !code[0].CLabel?
    ensures Joined([h] + (code + rest)) == Joined([Fill(h, code[0])] + (code[1..] + rest))
  {
    FilledHole(h, code[0]);
    var a, b := [h] + (code + rest), [Fill(h, code[0])] + (code[1..] + rest);
    assert a[1..] == code + rest && b[1..] == code[1..] + rest;
    assert (code + rest)[1..] == code[1..] + rest;
    var j := Joined(code + rest);
    assert j == [code[0]] + Joined(code[1..] + rest);
    assert j[1..] == Joined(code[1..] + rest);
  }

  lemma WholeIsForTermination(p: Program, ps: seq<Part>, a: Stmt, b: Stmt, flow: Flow, g: Gen)
    requires forall x <- ps :: x.stmt < a && x.stmt < b
    ensures EmitParts(p, ps, a, flow, g) == EmitParts(p, ps, b, flow, g)
  {
    hide Emit;
    if ps != [] {
      WholeIsForTermination(p, ps[1..], a, b, flow, Emit(p, ps[0].stmt, flow, ps[0].table, g).gen);
    }
  }

  /** A block in which n is taken by the head of x is the block with y, whose text has it there. */
  lemma NextTaken(p: Program, x: Stmt, n: Stmt, y: Stmt, rest: seq<Stmt>, flow: Flow, cur: Table, g: Gen)
    requires var e := Emit(p, x, flow, cur, g);
             var d, w := Emit(p, n, flow, cur, e.gen), Emit(p, y, flow, cur, g);
             && |e.code| == 1 && Hole(e.code[0]) && d.code != [] && !Hole(d.code[0])
             && !d.code[0].CCase? && !d.code[0].CDefault? && !d.code[0].CLabel?
             && w.code == [Fill(e.code[0], d.code[0])] + d.code[1..] && w.gen == d.gen
    ensures Emit(p, Block([x, n] + rest), flow, cur, g) == Emit(p, Block([y] + rest), flow, cur, g)
  {
    hide Emit, ListCode, ListGen, Joined;
    var e := Emit(p, x, flow, cur, g);
    var d := Emit(p, n, flow, cur, e.gen);
    var ss, ts := [x, n] + rest, [y] + rest;
    var a, b := Block(ss), Block(ts);
    BlockCode(p, a, flow, cur, g);
    BlockCode(p, b, flow, cur, g);
    assert ss[0] == x && ss[1..] == [n] + rest && ([n] + rest)[1..] == rest && ts[1..] == rest && ts[0] == y;
    assert ss[1..][0] == n;
    ListStepCode(p, ss, a, flow, cur, g);
    ListStepCode(p, ss[1..], a, flow, cur, e.gen);
    ListStepCode(p, ts, b, flow, cur, g);
    SameList(p, rest, a, b, flow, cur, d.gen);
    var tail := ListCode(p, rest, a, flow, cur, d.gen);
    assert e.code == [e.code[0]];
    JoinNext(e.code[0], d.code, tail);
    assert ([Fill(e.code[0], d.code[0])] + d.code[1..]) + tail == [Fill(e.code[0], d.code[0])] + (d.code[1..] + tail);
  }

  lemma PartsBelow(ss: seq<Stmt>, a: Stmt, b: Stmt, cur: Table)
    requires forall x <- ss :: x < a && x < b
    ensures forall z <- ListParts(ss, cur) :: z.stmt < a && z.stmt < b
  {
  }

  lemma SameList(p: Program, ss: seq<Stmt>, a: Stmt, b: Stmt, flow: Flow, cur: Table, g: Gen)
    requires forall x <- ss :: x < a && x < b
    ensures ListCode(p, ss, a, flow, cur, g) == ListCode(p, ss, b, flow, cur, g)
    ensures ListGen(p, ss, a, flow, cur, g) == ListGen(p, ss, b, flow, cur, g)
  {
    hide Emit, EmitParts, Concat;
    PartsBelow(ss, a, b, cur);
    WholeIsForTermination(p, ListParts(ss, cur), a, b, flow, g);
  }

  lemma BlockCode(p: Program, s: Stmt, flow: Flow, cur: Table, g: Gen)
    requires s.Block?
    ensures forall x <- s.stmts :: x < s
    ensures Emit(p, s, flow, cur, g) ==
            Emitted([CBlock(None, Joined(ListCode(p, s.stmts, s, flow, cur, g)))], ListGen(p, s.stmts, s, flow, cur, g))
  {
  }

  /** Which calls and inlined methods have no text: exactly those of methods with `{}` as body. */
  lemma EmptyBodiesVanish(p: Program, call: Stmt, inlined: Stmt, flow: Flow, cur: Table, g: Gen, st: Store, fuel: nat)
    requires call.Call? && call.callee in p && inlined.Inline?
    ensures Emit(p, call, flow, cur, g).code == [] <==> p[call.callee].body == Block([])
    ensures Emit(p, inlined, flow, cur, g).code == [] <==> inlined.inlined == Block([])
    ensures p[call.callee].body == Block([]) ==> Exec(p, call, st, fuel) == Some(Run(Normal, call.leave(st, call.enter(st))))
    ensures inlined.inlined == Block([]) ==>
              Exec(p, inlined, st, fuel) == Some(Run(Normal, inlined.copyOut(inlined.bind(st))))
  {
    EmitLeaf(p, call, flow, cur, g);
    InlineParts(p, inlined, flow, cur, g, st, fuel);
    hide Emit;
  }

  /** A branch without text: in C the next statement of the block is the branch. */
  lemma EmptyBranchTakesNext(p: Program, c: Store -> bool, t: Table, nothing: Stmt, n: Stmt, rest: seq<Stmt>,
                             flow: Flow, cur: Table, g: Gen)
    requires Tidy(p, nothing) && FormOf(p, nothing).Nothing? && Tidy(p, n) && !FormOf(p, n).Nothing?
    ensures Emit(p, Block([If(Cond(c, Unknown), t, nothing, NoElse), n] + rest), flow, cur, g) ==
            Emit(p, Block([If(Cond(c, Unknown), cur, n, NoElse)] + rest), flow, cur, g)
  {
    hide Emit;
    var x, y := If(Cond(c, Unknown), t, nothing, NoElse), If(Cond(c, Unknown), cur, n, NoElse);
    NothingEmitted(p, nothing, flow, t, g);
    EmitOne(p, Part(nothing, t), x, flow, g);
    EmitOne(p, Part(n, cur), y, flow, g);
    EmitAssembled(p, x, flow, cur, g);
    EmitAssembled(p, y, flow, cur, g);
    EmitShape(p, n, flow, cur, g);
    assert Emit(p, x, flow, cur, g).code == [CIf(OnStore(c), CMissing, None)];
    NextTaken(p, x, n, y, rest, flow, cur, g);
  }

  /** An else without text: the next statement of the block is the else. */
  lemma VanishingElse(p: Program, c: Store -> bool, t: Table, a: Stmt, tail: Else, n: Stmt, rest: seq<Stmt>,
                      flow: Flow, cur: Table, g: Gen)
    requires Tidy(p, a) && FormOf(p, a).Single? && Closed(a)
    requires !tail.NoElse? && TidyElse(p, tail) && ElseForm(p, tail).Nothing?
    requires Tidy(p, n) && !FormOf(p, n).Nothing?
    ensures Emit(p, Block([If(Cond(c, Unknown), t, a, tail), n] + rest), flow, cur, g) ==
            Emit(p, Block([If(Cond(c, Unknown), t, a, ElseBlock(cur, n))] + rest), flow, cur, g)
  {
    hide Emit, FormOf, Closed, ElseForm;
    var x, y := If(Cond(c, Unknown), t, a, tail), If(Cond(c, Unknown), t, a, ElseBlock(cur, n));
    var e := Emit(p, a, flow, t, g);
    ElseCode(p, c, t, a, tail, flow, cur, g);
    ElseCode(p, c, t, a, ElseBlock(cur, n), flow, cur, g);
    NoElseEmitted(p, tail, flow, cur, e.gen);
    EmitShape(p, n, flow, cur, e.gen);
    EmitShape(p, a, flow, t, g);
    NextTaken(p, x, n, y, rest, flow, cur, g);
  }

  lemma NoElseEmitted(p: Program, els: Else, flow: Flow, cur: Table, g: Gen)
    requires !els.NoElse? && TidyElse(p, els) && ElseForm(p, els).Nothing?
    ensures var z := ElseParts(els, cur, true)[0]; Emit(p, z.stmt, flow, z.table, g) == Emitted([], g)
  {
    var z := ElseParts(els, cur, true)[0];
    NothingEmitted(p, z.stmt, flow, z.table, g);
  }

  /** An else behind one closed statement. */
  lemma ElseCode(p: Program, c: Store -> bool, t: Table, a: Stmt, els: Else, flow: Flow, cur: Table, g: Gen)
    requires Tidy(p, a) && FormOf(p, a).Single? && Closed(a) && !els.NoElse?
    ensures var e, z := Emit(p, a, flow, t, g), ElseParts(els, cur, true)[0];
            var d := Emit(p, z.stmt, flow, z.table, e.gen);
            && e.code != []
            && Emit(p, If(Cond(c, Unknown), t, a, els), flow, cur, g) ==
               Emitted([CIf(OnStore(c), e.code[0], Some(First(d.code)))] + Rest(d.code), d.gen)
  {
    hide Emit, FormOf, Closed;
    var s := If(Cond(c, Unknown), t, a, els);
    var e, z := Emit(p, a, flow, t, g), ElseParts(els, cur, true)[0];
    EmitTwo(p, Part(a, t), z, s, flow, g);
    EmitAssembled(p, s, flow, cur, g);
    EmitShape(p, a, flow, t, g);
    var head := [CIf(OnStore(c), e.code[0], None)];
    assert Rest(e.code) == [] && head + [] == head && head[..0] == [];
  }

  // What the two kinds of loops have in common.

  function BodyOf(x: Stmt): Stmt
    requires x.While? || x.For?
  {
    if x.While? then x.whileBody else x.forBody
  }

  function InitOf(x: Stmt): Store -> Store
    requires x.While? || x.For?
  {
    if x.While? then IDENTITY else x.init
  }

  function GuardOf(x: Stmt): Store -> bool
    requires x.While? || x.For?
  {
    if x.While? then x.guard else x.test
  }

  function UpdateOf(x: Stmt): Store -> Store
    requires x.While? || x.For?
  {
    if x.While? then IDENTITY else x.update
  }

  /** The loop over n instead. */
  function Taking(x: Stmt, cur: Table, n: Stmt): Stmt
    requires x.While? || x.For?
  {
    if x.While? then While(x.guard, cur, n) else For(x.init, x.test, x.update, cur, n)
  }

  /** A loop whose body has no text. */
  ghost predicate EmptyLoop(p: Program, x: Stmt)
    requires x.While? || x.For?
  {
    Tidy(p, BodyOf(x)) && FormOf(p, BodyOf(x)).Nothing?
  }

  /** A loop body without text: the next statement of the block is the body. */
  lemma EmptyBodyTakesNext(p: Program, x: Stmt, n: Stmt, rest: seq<Stmt>, flow: Flow, cur: Table, g: Gen)
    requires (x.While? || x.For?) && EmptyLoop(p, x) && Tidy(p, n) && !FormOf(p, n).Nothing?
    ensures Emit(p, Block([x, n] + rest), flow, cur, g) == Emit(p, Block([Taking(x, cur, n)] + rest), flow, cur, g)
  {
    hide Emit, FormOf, Joined, Concat, IfCode, GuardOf, UpdateOf, InitOf;
    var y, body := Taking(x, cur, n), Parts(x, cur)[0];
    NothingEmitted(p, body.stmt, flow, body.table, g);
    EmitOne(p, body, x, flow, g);
    EmitOne(p, Part(n, cur), y, flow, g);
    EmitAssembled(p, x, flow, cur, g);
    EmitAssembled(p, y, flow, cur, g);
    EmitShape(p, n, flow, cur, g);
    NextTaken(p, x, n, y, rest, flow, cur, g);
  }

  /** Where a loop without a body ends, if it does. */
  function Spin(guard: Store -> bool, update: Store -> Store, st: Store, fuel: nat): Option<Store> {
    if !guard(st) then Some(st) else if fuel == 0 then None else Spin(guard, update, update(st), fuel - 1)
  }

  lemma {:induction false} SpinRuns(p: Program, guard: Store -> bool, update: Store -> Store, body: Stmt, whole: Stmt,
                                    st: Store, fuel: nat)
    requires body < whole && Tidy(p, body) && FormOf(p, body).Nothing?
    ensures var end := Spin(guard, update, st, fuel);
            ExecLoop(p, guard, update, body, whole, st, fuel) == if end.None? then None else Some(Run(Normal, end.value))
    decreases fuel
  {
    hide Exec;
    NothingRuns(p, body, st, fuel);
    if guard(st) && fuel > 0 {
      SpinRuns(p, guard, update, body, whole, update(st), fuel - 1);
    }
  }

  lemma {:induction false} SpinsForever(guard: Store -> bool, st: Store, fuel: nat)
    requires guard(st)
    ensures Spin(guard, IDENTITY, st, fuel) == None
  {
    if fuel > 0 {
      SpinsForever(guard, st, fuel - 1);
    }
  }

  lemma ExecOfLoop(p: Program, x: Stmt, st: Store, fuel: nat)
    requires x.While? || x.For?
    ensures BodyOf(x) < x
    ensures Exec(p, x, st, fuel) == ExecLoop(p, GuardOf(x), UpdateOf(x), BodyOf(x), x, InitOf(x)(st), fuel)
    ensures !GuardOf(x)(InitOf(x)(st)) ==> Exec(p, x, st, fuel) == Some(Run(Normal, InitOf(x)(st)))
  {
  }

  lemma EmptyLoopRuns(p: Program, x: Stmt, st: Store, fuel: nat)
    requires (x.While? || x.For?) && EmptyLoop(p, x)
    ensures var end := Spin(GuardOf(x), UpdateOf(x), InitOf(x)(st), fuel);
            && Exec(p, x, st, fuel) == (if end.None? then None else Some(Run(Normal, end.value)))
            && (x.While? && x.guard(st) ==> end == None)
            && (!GuardOf(x)(InitOf(x)(st)) ==> end == Some(InitOf(x)(st)))
  {
    ExecOfLoop(p, x, st, fuel);
    SpinRuns(p, GuardOf(x), UpdateOf(x), BodyOf(x), x, InitOf(x)(st), fuel);
    if x.While? && x.guard(st) {
      SpinsForever(x.guard, st, fuel);
    }
  }

  lemma TakingSame(x: Stmt, cur: Table, n: Stmt)
    requires x.While? || x.For?
    ensures var y := Taking(x, cur, n);
            (y.While? || y.For?) && InitOf(y) == InitOf(x) && GuardOf(y) == GuardOf(x)
  {
  }

  /** What the text means then is what the source means exactly if a loop that is entered comes to the
      same as the loop without a body, which in a `while` goes on forever, and if the next statement
      makes no difference behind one that is not. */
  lemma {:induction false} EmptyBodyMatters(p: Program, cp: CProgram, x: Stmt, n: Stmt, rest: seq<Stmt>,
                                            flow: Flow, cur: Table, g: Gen, st: Store, f: Flags, clean: bool, fuel: nat)
    requires (x.While? || x.For?) && EmptyLoop(p, x) && Tidy(p, n) && !FormOf(p, n).Nothing?
    requires var read := Block([Taking(x, cur, n)] + rest);
             && Compiled(p, cp) && Tidy(p, read) && Apart(read, cur) && Ready(p, read, flow, cur, g, f, clean)
             && Steady(p, read, flow.exec, cur, clean)
    ensures var s, read := Block([x, n] + rest), Block([Taking(x, cur, n)] + rest);
            var st0, end := InitOf(x)(st), Spin(GuardOf(x), UpdateOf(x), InitOf(x)(st), fuel);
            && Matches(flow, Alias(g, flow.exec), f, clean, clean || Resets(p, read), Exec(p, read, st, fuel),
                       CExecSeq(cp, Emit(p, s, flow, cur, g).code, st, f, fuel))
            && (x.While? && x.guard(st) ==> end == None)
            && (Exec(p, read, st, fuel) == Exec(p, s, st, fuel) <==>
                if !GuardOf(x)(st0) then ExecSeq(p, [n] + rest, st0, fuel) == ExecSeq(p, rest, st0, fuel)
                else if end.None? then Exec(p, read, st, fuel) == None
                else Exec(p, read, st, fuel) == ExecSeq(p, [n] + rest, end.value, fuel))
  {
    hide *;
    var y := Taking(x, cur, n);
    var read := Block([y] + rest);
    TakingSame(x, cur, n);
    TidyIsItem(p, read);
    EmptyBodyTakesNext(p, x, n, rest, flow, cur, g);
    SimBlock(p, cp, read, flow, cur, g, st, f, clean, fuel);
    EmptyLoopRuns(p, x, st, fuel);
    ExecOfLoop(p, y, st, fuel);
    BlockStep(p, x, [n] + rest, st, fuel);
    BlockStep(p, y, rest, st, fuel);
    assert [x] + ([n] + rest) == [x, n] + rest;
  }

  /** What the text of a block means is what its source means exactly where the condition holds or the
      next statement makes no difference. */
  lemma {:induction false} EmptyBranchMatters(p: Program, cp: CProgram, c: Store -> bool, t: Table, nothing: Stmt, n: Stmt,
                                              rest: seq<Stmt>, flow: Flow, cur: Table, g: Gen,
                                              st: Store, f: Flags, clean: bool, fuel: nat)
    requires Tidy(p, nothing) && FormOf(p, nothing).Nothing? && Tidy(p, n) && !FormOf(p, n).Nothing?
    requires var read := Block([If(Cond(c, Unknown), cur, n, NoElse)] + rest);
             && Compiled(p, cp) && Tidy(p, read) && Apart(read, cur) && Ready(p, read, flow, cur, g, f, clean)
             && Steady(p, read, flow.exec, cur, clean)
    ensures var s := Block([If(Cond(c, Unknown), t, nothing, NoElse), n] + rest);
            var read := Block([If(Cond(c, Unknown), cur, n, NoElse)] + rest);
            && Matches(flow, Alias(g, flow.exec), f, clean, clean || Resets(p, read), Exec(p, read, st, fuel),
                       CExecSeq(cp, Emit(p, s, flow, cur, g).code, st, f, fuel))
            && (Exec(p, read, st, fuel) == Exec(p, s, st, fuel) <==>
                c(st) || ExecSeq(p, [n] + rest, st, fuel) == ExecSeq(p, rest, st, fuel))
  {
    hide *;
    var read := Block([If(Cond(c, Unknown), cur, n, NoElse)] + rest);
    TidyIsItem(p, read);
    EmptyBranchTakesNext(p, c, t, nothing, n, rest, flow, cur, g);
    NothingRuns(p, nothing, st, fuel);
    SimBlock(p, cp, read, flow, cur, g, st, f, clean, fuel);
    SkippedBranch(p, c, t, nothing, n, rest, cur, st, fuel);
  }

  lemma SkippedBranch(p: Program, c: Store -> bool, t: Table, nothing: Stmt, n: Stmt, rest: seq<Stmt>, cur: Table,
                      st: Store, fuel: nat)
    requires Exec(p, nothing, st, fuel) == Some(Run(Normal, st))
    ensures var s := Block([If(Cond(c, Unknown), t, nothing, NoElse), n] + rest);
            var read := Block([If(Cond(c, Unknown), cur, n, NoElse)] + rest);
            Exec(p, read, st, fuel) == Exec(p, s, st, fuel) <==>
                c(st) || ExecSeq(p, [n] + rest, st, fuel) == ExecSeq(p, rest, st, fuel)
  {
    var x, y := If(Cond(c, Unknown), t, nothing, NoElse), If(Cond(c, Unknown), cur, n, NoElse);
    hide Exec, ExecSeq;
    ExecOfIf(p, x, st, fuel);
    ExecOfIf(p, y, st, fuel);
    ExecElseNone(p, st, fuel);
    BlockStep(p, x, [n] + rest, st, fuel);
    BlockStep(p, y, rest, st, fuel);
    BlockStep(p, n, rest, st, fuel);
    assert [x] + ([n] + rest) == [x, n] + rest;
  }

  lemma ExecElseNone(p: Program, st: Store, fuel: nat)
    ensures ExecElse(p, NoElse, st, fuel) == Some(Run(Normal, st))
  {
  }

  lemma BlockStep(p: Program, s: Stmt, rest: seq<Stmt>, st: Store, fuel: nat)
    ensures Exec(p, Block([s] + rest), st, fuel) == ExecSeq(p, [s] + rest, st, fuel)
    ensures ExecSeq(p, [s] + rest, st, fuel) ==
            match Exec(p, s, st, fuel)
            case None => None
            case Some(r) => if r.outcome == Normal then ExecSeq(p, rest, r.store, fuel) else Some(r)
  {
    assert ([s] + rest)[1..] == rest;
  }

  lemma {:induction false} VanishingElseMatters(p: Program, cp: CProgram, c: Store -> bool, t: Table, a: Stmt, tail: Else,
                                                n: Stmt, rest: seq<Stmt>, flow: Flow, cur: Table, g: Gen,
                                                st: Store, f: Flags, clean: bool, fuel: nat)
    requires Tidy(p, a) && FormOf(p, a).Single? && Closed(a)
    requires !tail.NoElse? && TidyElse(p, tail) && ElseForm(p, tail).Nothing?
    requires Tidy(p, n) && !FormOf(p, n).Nothing?
    requires var read := Block([If(Cond(c, Unknown), t, a, ElseBlock(cur, n))] + rest);
             && Compiled(p, cp) && Tidy(p, read) && Apart(read, cur) && Ready(p, read, flow, cur, g, f, clean)
             && Steady(p, read, flow.exec, cur, clean)
    ensures var s := Block([If(Cond(c, Unknown), t, a, tail), n] + rest);
            var read := Block([If(Cond(c, Unknown), t, a, ElseBlock(cur, n))] + rest);
            var r := Exec(p, a, st, fuel);
            && Matches(flow, Alias(g, flow.exec), f, clean, clean || Resets(p, read), Exec(p, read, st, fuel),
                       CExecSeq(cp, Emit(p, s, flow, cur, g).code, st, f, fuel))
            && (Exec(p, read, st, fuel) == Exec(p, s, st, fuel) <==>
                !c(st) || !Ended(r, Normal)
                || ExecSeq(p, [n] + rest, r.value.store, fuel) == ExecSeq(p, rest, r.value.store, fuel))
  {
    hide *;
    var read := Block([If(Cond(c, Unknown), t, a, ElseBlock(cur, n))] + rest);
    TidyIsItem(p, read);
    VanishingElse(p, c, t, a, tail, n, rest, flow, cur, g);
    NoElseRuns(p, tail, st, fuel);
    SimBlock(p, cp, read, flow, cur, g, st, f, clean, fuel);
    SkippedElse(p, c, t, a, tail, n, rest, cur, st, fuel);
  }

  lemma SkippedElse(p: Program, c: Store -> bool, t: Table, a: Stmt, tail: Else, n: Stmt, rest: seq<Stmt>, cur: Table,
                    st: Store, fuel: nat)
    requires ExecElse(p, tail, st, fuel) == Some(Run(Normal, st))
    ensures var s := Block([If(Cond(c, Unknown), t, a, tail), n] + rest);
            var read := Block([If(Cond(c, Unknown), t, a, ElseBlock(cur, n))] + rest);
            var r := Exec(p, a, st, fuel);
            Exec(p, read, st, fuel) == Exec(p, s, st, fuel) <==>
                !c(st) || !Ended(r, Normal)
                || ExecSeq(p, [n] + rest, r.value.store, fuel) == ExecSeq(p, rest, r.value.store, fuel)
  {
    var x, y := If(Cond(c, Unknown), t, a, tail), If(Cond(c, Unknown), t, a, ElseBlock(cur, n));
    hide Exec, ExecSeq;
    ExecOfIf(p, x, st, fuel);
    ExecOfIf(p, y, st, fuel);
    BlockStep(p, x, [n] + rest, st, fuel);
    BlockStep(p, y, rest, st, fuel);
    BlockStep(p, n, rest, st, fuel);
    assert [x] + ([n] + rest) == [x, n] + rest;
  }

  lemma NoElseRuns(p: Program, els: Else, st: Store, fuel: nat)
    requires TidyElse(p, els) && ElseForm(p, els).Nothing?
    ensures ExecElse(p, els, st, fuel) == Some(Run(Normal, st))
  {
    match els
    case NoElse =>
    case ElseIf(e) => NothingRuns(p, e, st, fuel);
    case ElseBlock(_, e) => NothingRuns(p, e, st, fuel);
  }

  // ----- a call as loop body -----

  /** A loop over a call without braces. */
  predicate CallLoop(p: Program, x: Stmt)
    requires x.While? || x.For?
  {
    BodyOf(x).Call? && BodyOf(x).callee in p && !EmptyMethod(p, BodyOf(x).callee)
  }

  /** The call in the body. */
  function Called(p: Program, x: Stmt, st: Store, fuel: nat): Option<(bool, Store)>
    requires (x.While? || x.For?) && CallLoop(p, x)
  {
    match ExecMethod(p, BodyOf(x).callee, BodyOf(x).enter(st), fuel)
    case None => None
    case Some(r) => Some((r.0, BodyOf(x).leave(st, r.1)))
  }

  /** What the text of such a loop means: the test of the flag stands behind the loop, which goes on
      as long as its condition holds, so that only the last call is looked at. */
  function LoopRead(p: Program, x: Stmt, st: Store, raised: bool, fuel: nat): Option<Run>
    requires (x.While? || x.For?) && CallLoop(p, x)
    decreases fuel
  {
    if !GuardOf(x)(st) then Some(Run(if raised then Thrown else Normal, st))
    else
      var r := Called(p, x, st, fuel);
      if r.None? || fuel == 0 then None else LoopRead(p, x, UpdateOf(x)(r.value.1), r.value.0, fuel - 1)
  }

  /** The first call that throws: the state behind it and the fuel that is left. */
  function FirstThrow(p: Program, x: Stmt, st: Store, fuel: nat): Option<(Store, nat)>
    requires (x.While? || x.For?) && CallLoop(p, x)
    decreases fuel
  {
    if !GuardOf(x)(st) then None
    else
      var r := Called(p, x, st, fuel);
      if r.None? || fuel == 0 then None
      else if r.value.0 then Some((r.value.1, fuel - 1))
      else FirstThrow(p, x, UpdateOf(x)(r.value.1), fuel - 1)
  }

  lemma LoopText(p: Program, x: Stmt, flow: Flow, cur: Table, g: Gen)
    requires (x.While? || x.For?) && CallLoop(p, x)
    ensures var code := CallCode(p, BodyOf(x), flow, g);
            Emit(p, x, flow, cur, g).code == [CLoop(InitOf(x), GuardOf(x), UpdateOf(x), code[0]), code[1]]
  {
    hide Emit;
    var body, code := Parts(x, cur)[0], CallCode(p, BodyOf(x), flow, g);
    EmitLeaf(p, body.stmt, flow, body.table, g);
    EmitOne(p, body, x, flow, g);
    EmitAssembled(p, x, flow, cur, g);
    assert Rest(code) == [code[1]];
  }

  /** One round of the loop in C. */
  lemma LoopRound(p: Program, cp: CProgram, x: Stmt, whole: CStmt, flow: Flow, g: Gen, st: Store, f: Flags, fuel: nat)
    requires Compiled(p, cp) && (x.While? || x.For?) && CallLoop(p, x) && flow.exec in f
    requires whole.CLoop? && whole.body == CallCode(p, BodyOf(x), flow, g)[0] && GuardOf(x)(st)
    ensures var r := Called(p, x, st, fuel);
            CExecLoop(cp, GuardOf(x), UpdateOf(x), whole.body, whole, st, f, fuel) ==
            if r.None? || fuel == 0 then None
            else CExecLoop(cp, GuardOf(x), UpdateOf(x), whole.body, whole, UpdateOf(x)(r.value.1),
                           f[flow.exec := r.value.0], fuel - 1)
  {
    hide Tidy, Apart, Needs, Steady;
    var call := BodyOf(x);
    assert FunctionFor(p, cp, call.callee);
    if fuel > 0 {
      SimBody(p, cp, call.callee, call.enter(st), fuel - 1);
    }
    var c := CExec(cp, whole.body, st, f, fuel);
    assert c.Some? ==> c.value.outcome == CNormal;
  }

  lemma {:induction false} LoopMeansRead(p: Program, cp: CProgram, x: Stmt, whole: CStmt, flow: Flow, g: Gen,
                                         st: Store, f: Flags, fuel: nat)
    requires Compiled(p, cp) && (x.While? || x.For?) && CallLoop(p, x) && flow.exec in f
    requires whole.CLoop? && whole.body == CallCode(p, BodyOf(x), flow, g)[0]
    ensures var r := LoopRead(p, x, st, f[flow.exec], fuel);
            CExecLoop(cp, GuardOf(x), UpdateOf(x), whole.body, whole, st, f, fuel) ==
            if r.None? then None
            else Some(CRun(CNormal, r.value.store, f[flow.exec := r.value.outcome == Thrown]))
    decreases fuel
  {
    hide Called, CallLoop, CallCode, Compiled, BodyOf, GuardOf, UpdateOf, InitOf, CExec, Exec, ExecMethod;
    if GuardOf(x)(st) {
      LoopRound(p, cp, x, whole, flow, g, st, f, fuel);
      var r := Called(p, x, st, fuel);
      if r.Some? && fuel > 0 {
        var st1, f1 := UpdateOf(x)(r.value.1), f[flow.exec := r.value.0];
        LoopMeansRead(p, cp, x, whole, flow, g, st1, f1, fuel - 1);
        var last := LoopRead(p, x, st1, r.value.0, fuel - 1);
        if last.Some? {
          var b := last.value.outcome == Thrown;
          assert f1[flow.exec := b] == f[flow.exec := b];
        }
      }
    } else {
      assert f[flow.exec := f[flow.exec]] == f;
    }
  }

  /** The text of a loop over a call without braces does what is read there: the same up to the first
      call that throws. With that one the source stops, and the text goes on with the next round. In a
      `while` both come to the same exactly if the condition has become false. */
  lemma UnbracedCallInLoop(p: Program, cp: CProgram, x: Stmt, flow: Flow, cur: Table, g: Gen,
                           st: Store, f: Flags, fuel: nat)
    requires Compiled(p, cp) && (x.While? || x.For?) && CallLoop(p, x) && flow.exec in f
    requires !Raised(flow, f) && (flow.throwing.Some? ==> flow.throwing.value == flow.exec)
    ensures var st0, r := InitOf(x)(st), Exec(p, x, st, fuel);
            var read, first := LoopRead(p, x, st0, false, fuel), FirstThrow(p, x, st0, fuel);
            && Matches(flow, Alias(g, flow.exec), f, true, true, read, CExecSeq(cp, Emit(p, x, flow, cur, g).code, st, f, fuel))
            && (first.None? ==> r == read && !Ended(r, Thrown))
            && (first.Some? ==>
                  && r == Some(Run(Thrown, first.value.0))
                  && read == LoopRead(p, x, UpdateOf(x)(first.value.0), true, first.value.1))
            && (x.While? ==> (r == read <==> !(Ended(r, Thrown) && x.guard(r.value.store))))
  {
    hide Exec, ExecLoop, CExec, CExecSeq, Emit, LoopRead, FirstThrow, CallLoop, Compiled, Matches, BodyOf, GuardOf, UpdateOf, InitOf;
    var st0 := InitOf(x)(st);
    ExecOfLoop(p, x, st, fuel);
    UpToThrow(p, x, st0, fuel);
    LoopTextRun(p, cp, x, flow, cur, g, st, f, fuel);
    WhileAgrees(p, x, st0, fuel);
  }

  lemma {:induction false} UpToThrow(p: Program, x: Stmt, st: Store, fuel: nat)
    requires (x.While? || x.For?) && CallLoop(p, x) && BodyOf(x) < x
    ensures var r := ExecLoop(p, GuardOf(x), UpdateOf(x), BodyOf(x), x, st, fuel);
            var read, first := LoopRead(p, x, st, false, fuel), FirstThrow(p, x, st, fuel);
            && (first.None? ==> r == read && !Ended(r, Thrown))
            && (first.Some? ==>
                  && r == Some(Run(Thrown, first.value.0))
                  && read == LoopRead(p, x, UpdateOf(x)(first.value.0), true, first.value.1))
    decreases fuel
  {
    hide Exec, Called, CallLoop;
    CalledIs(p, x, st, fuel);
    var r := Called(p, x, st, fuel);
    if GuardOf(x)(st) && fuel > 0 && r.Some? && !r.value.0 {
      UpToThrow(p, x, UpdateOf(x)(r.value.1), fuel - 1);
    }
  }

  lemma CalledIs(p: Program, x: Stmt, st: Store, fuel: nat)
    requires (x.While? || x.For?) && CallLoop(p, x)
    ensures var r := Called(p, x, st, fuel);
            && Exec(p, BodyOf(x), st, fuel) ==
               (if r.None? then None else Some(Run(if r.value.0 then Thrown else Normal, r.value.1)))
            && (r.Some? ==> fuel > 0)
  {
  }

  lemma WhileAgrees(p: Program, x: Stmt, st: Store, fuel: nat)
    requires (x.While? || x.For?) && CallLoop(p, x)
    ensures var first := FirstThrow(p, x, st, fuel);
            x.While? && first.Some? ==>
              (LoopRead(p, x, UpdateOf(x)(first.value.0), true, first.value.1) == Some(Run(Thrown, first.value.0)) <==>
               !x.guard(first.value.0))
  {
    hide CallLoop, FirstThrow, Called;
    var first := FirstThrow(p, x, st, fuel);
    if first.Some? {
      LoopReadEnds(p, x, UpdateOf(x)(first.value.0), true, first.value.1);
    }
  }

  lemma LoopTextRun(p: Program, cp: CProgram, x: Stmt, flow: Flow, cur: Table, g: Gen, st: Store, f: Flags, fuel: nat)
    requires Compiled(p, cp) && (x.While? || x.For?) && CallLoop(p, x) && flow.exec in f
    requires !Raised(flow, f) && (flow.throwing.Some? ==> flow.throwing.value == flow.exec)
    ensures Matches(flow, Alias(g, flow.exec), f, true, true, LoopRead(p, x, InitOf(x)(st), false, fuel),
                    CExecSeq(cp, Emit(p, x, flow, cur, g).code, st, f, fuel))
  {
    hide Emit, LoopRead, Compiled;
    assert !f[flow.exec];
    var code, st0 := CallCode(p, BodyOf(x), flow, g), InitOf(x)(st);
    var whole, read := CLoop(InitOf(x), GuardOf(x), UpdateOf(x), code[0]), LoopRead(p, x, st0, false, fuel);
    LoopText(p, x, flow, cur, g);
    LoopMeansRead(p, cp, x, whole, flow, g, st0, f, fuel);
    assert [whole, code[1]][1..] == [code[1]];
    assert CExec(cp, whole, st, f, fuel) == CExecLoop(cp, GuardOf(x), UpdateOf(x), code[0], whole, st0, f, fuel);
    if read.Some? {
      SimCallTest(cp, code[1], flow, g, read.value.store, f[flow.exec := read.value.outcome == Thrown], fuel);
      LoopReadEnds(p, x, st0, false, fuel);
    }
  }

  lemma LoopReadEnds(p: Program, x: Stmt, st: Store, raised: bool, fuel: nat)
    requires (x.While? || x.For?) && CallLoop(p, x)
    ensures var r := LoopRead(p, x, st, raised, fuel);
            r.Some? ==> (r.value.outcome == Normal || r.value.outcome == Thrown) && !GuardOf(x)(r.value.store)
    decreases fuel
  {
    hide Called, CallLoop;
    var r := Called(p, x, st, fuel);
    if GuardOf(x)(st) && r.Some? && fuel > 0 {
      LoopReadEnds(p, x, UpdateOf(x)(r.value.1), r.value.0, fuel - 1);
    }
  }

  /** An exception that is lost: the condition still holds after a call that throws, and the next call
      succeeds and ends the loop. */
  lemma LoopLosesException(p: Program, cp: CProgram, guard: Store -> bool, call: Stmt, t: Table,
                           flow: Flow, cur: Table, g: Gen, st: Store, st1: Store, st2: Store, f: Flags, fuel: nat)
    requires Compiled(p, cp) && call.Call? && call.callee in p && !EmptyMethod(p, call.callee) && flow.exec in f
    requires !Raised(flow, f) && (flow.throwing.Some? ==> flow.throwing.value == flow.exec)
    requires fuel > 1 && guard(st) && guard(st1) && !guard(st2)
    requires Exec(p, call, st, fuel) == Some(Run(Thrown, st1)) && Exec(p, call, st1, fuel - 1) == Some(Run(Normal, st2))
    ensures var s := While(guard, t, call);
            var c := CExecSeq(cp, Emit(p, s, flow, cur, g).code, st, f, fuel);
            Exec(p, s, st, fuel) == Some(Run(Thrown, st1)) && c.Some? && c.value.outcome == CNormal && c.value.store == st2
  {
    var s := While(guard, t, call);
    UnbracedCallInLoop(p, cp, s, flow, cur, g, st, f, fuel);
    CalledIs(p, s, st, fuel);
    CalledIs(p, s, st1, fuel - 1);
    hide Emit, CExecSeq, Exec, Called;
    assert LoopRead(p, s, st1, true, fuel - 1) == LoopRead(p, s, st2, false, fuel - 2);
  }
}
