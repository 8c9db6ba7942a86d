/** Lowering preserves meaning: a generated function does what its method does, and returns 1
    exactly when an exception leaves the method. */
module Simulation {
  import opened Common
  import opened Dml
  import opened CTarget
  import opened FlowControl
  import opened Emission
  import opened Labels
  import opened Gotos
  import opened Scopes
  import opened TidyBodies
  import opened StaleFlags

  // ----- running lists of C statements -----

  lemma SeqThen(cp: CProgram, a: seq<CStmt>, b: seq<CStmt>, st: Store, f: Flags, fuel: nat)
    ensures CExecSeq(cp, a + b, st, f, fuel) ==
            match CExecSeq(cp, a, st, f, fuel)
            case None => None
            case Some(r) => if r.outcome == CNormal then CExecSeq(cp, b, r.store, r.flags, fuel) else Some(r)
  {
    if a == [] {
      assert a + b == b;
    } else {
      assert (a + b)[1..] == a[1..] + b;
      var r := CExec(cp, a[0], st, f, fuel);
      if r.Some? && r.value.outcome == CNormal {
        SeqThen(cp, a[1..], b, r.value.store, r.value.flags, fuel);
      }
    }
  }

  lemma SeqOne(cp: CProgram, c: CStmt, st: Store, f: Flags, fuel: nat)
    ensures CExecSeq(cp, [c], st, f, fuel) == CExec(cp, c, st, f, fuel)
  {
    assert [c][1..] == [];
  }

  lemma BlockWithoutLabels(cp: CProgram, items: seq<CStmt>, k: nat, st: Store, f: Flags, fuel: nat)
    requires k <= |items| && forall l :: FindLabel(items, l) == |items|
    ensures CExecBlock(cp, items, k, st, f, fuel) == CExecSeq(cp, items[k..], st, f, fuel)
    ensures items[0..] == items
  {
  }

  // ----- the correspondence of runs -----

  /** How the outcome of a statement shows in C when the handler in force has label l. */
  function Image(o: Outcome, flow: Flow, l: Label): COutcome {
    match o
    case Normal => CNormal
    case Broke => CBroke
    case Continued => CContinued
    case Returned => CReturned(false)
    case Thrown => if flow.throwing.Some? then CJump(l) else CReturned(true)
  }

  /** Nothing but the flag of the flow context has changed. */
  ghost predicate Kept(flow: Flow, f0: Flags, f1: Flags) {
    && (flow.exec in f1 <==> flow.exec in f0)
    && forall x :: x != flow.exec ==> Lookup(f1, x) == Lookup(f0, x)
  }

  /** The flag of the flow context is set. */
  predicate Raised(flow: Flow, f: Flags) {
    Lookup(f, flow.exec) == Some(true)
  }

  /** The C run c, started with flags f0, does what the source run r does. Inside of a try the flag
      afterwards says whether an exception is on its way to the handler. A flag that was not set is
      set by an exception only, and `reset` says that it is not set where control goes on. */
  ghost predicate Matches(flow: Flow, l: Label, f0: Flags, clean: bool, reset: bool, r: Option<Run>, c: Option<CRun>) {
    && (r.None? <==> c.None?)
    && (r.Some? ==>
          && c.value.outcome == Image(r.value.outcome, flow, l)
          && c.value.store == r.value.store
          && Kept(flow, f0, c.value.flags)
          && (flow.throwing.Some? ==> Lookup(c.value.flags, flow.exec) == Some(r.value.outcome == Thrown))
          && (clean && r.value.outcome != Thrown ==> !Raised(flow, c.value.flags))
          && (reset && r.value.outcome == Normal ==> !Raised(flow, c.value.flags)))
  }

  lemma MatchesAfter(flow: Flow, l: Label, f0: Flags, f1: Flags, clean: bool, now: bool, reset: bool,
                     r: Option<Run>, c: Option<CRun>)
    requires Kept(flow, f0, f1) && Matches(flow, l, f1, now, reset, r, c)
    requires clean ==> now
    ensures Matches(flow, l, f0, clean, reset, r, c)
  {
  }

  /** The label matters inside of a try only, and less may be claimed about the flag. */
  lemma MatchesToo(flow: Flow, k: Label, l: Label, f0: Flags, clean: bool, was: bool, reset: bool,
                   r: Option<Run>, c: Option<CRun>)
    requires Matches(flow, k, f0, clean, was, r, c)
    requires (flow.throwing.Some? ==> k == l) && (reset ==> clean || was)
    ensures Matches(flow, l, f0, clean, reset, r, c)
  {
  }

  lemma MatchesAfterLoop(flow: Flow, l: Label, f0: Flags, clean: bool, reset: bool, r: Option<Run>, c: Option<CRun>)
    requires Matches(flow, l, f0, clean, reset, r, c)
    ensures Matches(flow, l, f0, clean, clean, AfterLoop(r), AfterCLoop(c))
  {
  }

  /** The flow context is one that do_block_logic or translate_try_catch sets up, and a flag that
      may be needed is declared. */
  predicate Ready(p: Program, s: Stmt, flow: Flow, cur: Table, g: Gen, f: Flags, clean: bool) {
    && (Needs(p, s, cur, flow.exec) ==> flow.exec in f)
    && (clean ==> !Raised(flow, f))
    && (flow.throwing.Some? ==>
          && flow.throwing.value == flow.exec && clean
          && Lookup(f, flow.exec) == Some(false)
          && Alias(g, flow.exec) < g.next
          && !Clobbers(s, flow.exec, cur))
  }

  /** A method that can be translated faithfully. */
  ghost predicate GoodMethod(p: Program, m: Method) {
    IsEmpty(m.body) ||
    (&& Tidy(p, m.body) && Apart(m.body, m.table) && Steady(p, m.body, m.table, m.table, true)
     && (MayCall(p, m.body) ==> HasExec(m)))
  }

  /** cp holds the function generated for method m. */
  ghost predicate FunctionFor(p: Program, cp: CProgram, m: Name)
    requires m in p
  {
    && m in cp && GoodMethod(p, p[m])
    && exists stale: Flow, g: Gen :: stale.throwing.None? && cp[m] == EmitMethod(p, p[m], stale, g).code
  }

  /** cp holds the functions generated for the methods of p, in any order and with any left-over flow. */
  ghost predicate Compiled(p: Program, cp: CProgram) {
    forall m {:trigger FunctionFor(p, cp, m)} :: m in p ==> FunctionFor(p, cp, m)
  }

  // ----- one lemma per kind of statement -----

  lemma SimThrow(p: Program, cp: CProgram, s: Stmt, flow: Flow, cur: Table, g: Gen,
                 st: Store, f: Flags, clean: bool, fuel: nat)
    requires s.Throw? && Ready(p, s, flow, cur, g, f, clean)
    ensures Matches(flow, Alias(g, flow.exec), f, clean, clean || Resets(p, s), Exec(p, s, st, fuel),
                    CExecSeq(cp, ThrowCode(flow, g), st, f, fuel))
  {
    hide Clobbers, FindLabel, Alias;
    var out := ExitCode(flow, g);
    SeqOne(cp, ThrowCode(flow, g)[0], st, f, fuel);
    if flow.throwing.Some? {
      var items := [CSetFlag(flow.exec), out];
      assert items[1..] == [out];
      PlainList(items);
      BlockWithoutLabels(cp, items, 0, st, f, fuel);
      SeqOne(cp, out, st, f[flow.exec := true], fuel);
    }
  }

  /** What a part inherits from the statement it belongs to. */
  lemma PartInherits(p: Program, s: Stmt, cur: Table, i: nat, t: Table)
    requires !s.Try? && i < Arity(s) && TidyItem(p, s)
    ensures var x := Parts(s, cur)[i];
            && TidyItem(p, x.stmt)
            && (Clobbers(x.stmt, t, x.table) ==> Clobbers(s, t, cur))
            && (Apart(s, cur) ==> Apart(x.stmt, x.table))
            && (Needs(p, x.stmt, x.table, t) ==> Needs(p, s, cur, t))
  {
    AnyPart(Parts(s, cur), s, i, t);
    PartTidy(p, s, cur, i);
    if Needs(p, Parts(s, cur)[i].stmt, Parts(s, cur)[i].table, t) {
      AnyPartNeeds(p, Parts(s, cur), s, t, i);
    }
  }

  lemma PartTidy(p: Program, s: Stmt, cur: Table, i: nat)
    requires !s.Try? && i < Arity(s) && TidyItem(p, s)
    ensures TidyItem(p, Parts(s, cur)[i].stmt)
  {
    var x := Parts(s, cur)[i];
    TidyIsItem(p, x.stmt);
    match s
    case Block(ss) => assert x.stmt == ss[i];
    case Switch(_, ss) => assert x.stmt == ss[i];
    case If(c, _, thn, els) => if c.folded.IsFalse? || i == 1 { assert TidyElse(p, els); }
    case _ =>
  }

  lemma PartReady(p: Program, s: Stmt, flow: Flow, cur: Table, g: Gen, f: Flags, clean: bool, i: nat)
    requires !s.Try? && i < Arity(s) && TidyItem(p, s) && Ready(p, s, flow, cur, g, f, clean)
    ensures var x := Parts(s, cur)[i]; Ready(p, x.stmt, flow, x.table, g, f, clean)
  {
    hide Needs, Clobbers, Arity, Parts;
    PartInherits(p, s, cur, i, flow.exec);
  }

  lemma PartSteady(p: Program, s: Stmt, exec: Table, cur: Table, clean: bool, i: nat)
    requires !s.Try? && !s.Block? && !s.Switch? && i < Arity(s) && Steady(p, s, exec, cur, clean)
    ensures var x := Parts(s, cur)[i]; Steady(p, x.stmt, exec, x.table, clean)
  {
    AnyPartSteady(p, Parts(s, cur), s, exec, clean, i);
  }

  lemma AnyPartSteady(p: Program, ps: seq<Part>, whole: Stmt, exec: Table, clean: bool, i: nat)
    requires (forall x <- ps :: x.stmt < whole) && i < |ps| && PartsSteady(p, ps, whole, exec, clean)
    ensures Steady(p, ps[i].stmt, exec, ps[i].table, clean)
    decreases i
  {
    if i > 0 {
      AnyPartSteady(p, ps[1..], whole, exec, clean, i - 1);
    }
  }

  lemma TidyIsItem(p: Program, s: Stmt)
    ensures Tidy(p, s) ==> TidyItem(p, s)
  {
  }

  lemma AnyPart(ps: seq<Part>, whole: Stmt, i: nat, t: Table)
    requires (forall x <- ps :: x.stmt < whole) && i < |ps|
    ensures Clobbers(ps[i].stmt, t, ps[i].table) ==> AnyClobbers(ps, whole, t)
    ensures AllApart(ps, whole) ==> Apart(ps[i].stmt, ps[i].table)
    decreases i
  {
    if i > 0 {
      AnyPart(ps[1..], whole, i - 1, t);
    }
  }

  lemma {:induction false} SimCall(p: Program, cp: CProgram, s: Stmt, flow: Flow, cur: Table, g: Gen,
                                   st: Store, f: Flags, clean: bool, fuel: nat)
    requires s.Call? && Compiled(p, cp) && Tidy(p, s) && Ready(p, s, flow, cur, g, f, clean)
    ensures Matches(flow, Alias(g, flow.exec), f, clean, clean || Resets(p, s), Exec(p, s, st, fuel),
                    CExecSeq(cp, CallCode(p, s, flow, g), st, f, fuel))
    decreases fuel, s, 0
  {
    hide Exec, Tidy, Clobbers, Apart, ExitCode, CExecBlock, Steady;
    ExecOfCall(p, s, st, fuel);
    if IsEmpty(p[s.callee].body) || fuel == 0 {
      return;
    }
    assert FunctionFor(p, cp, s.callee);
    SimBody(p, cp, s.callee, s.enter(st), fuel - 1);
    var r := Finish(Exec(p, p[s.callee].body, s.enter(st), fuel - 1));
    var code := CallCode(p, s, flow, g);
    assert code[1..] == [code[1]];
    if r.Some? {
      SimCallTest(cp, code[1], flow, g, s.leave(st, r.value.1), f[flow.exec := r.value.0], fuel);
    }
  }

  lemma ExecOfCall(p: Program, s: Stmt, st: Store, fuel: nat)
    requires s.Call? && Tidy(p, s)
    ensures s.callee in p
    ensures Exec(p, s, st, fuel) ==
            if IsEmpty(p[s.callee].body) then Some(Run(Normal, st))
            else if fuel == 0 then None
            else
              match Finish(Exec(p, p[s.callee].body, s.enter(st), fuel - 1))
              case None => None
              case Some(r) => Some(Run(if r.0 then Thrown else Normal, s.leave(st, r.1)))
  {
  }

  /** The test of the flag after a call. */
  lemma SimCallTest(cp: CProgram, c: CStmt, flow: Flow, g: Gen, st: Store, f: Flags, fuel: nat)
    requires c == CIf(OnFlag(flow.exec), CBlock(None, [ExitCode(flow, g)]), None) && flow.exec in f
    requires flow.throwing.Some? ==> flow.throwing.value == flow.exec
    ensures CExecSeq(cp, [c], st, f, fuel) ==
            Some(CRun(Image(if f[flow.exec] then Thrown else Normal, flow, Alias(g, flow.exec)), st, f))
  {
    var out := ExitCode(flow, g);
    SeqOne(cp, c, st, f, fuel);
    BlockWithoutLabels(cp, [out], 0, st, f, fuel);
    SeqOne(cp, out, st, f, fuel);
  }

  lemma {:induction false} SimIf(p: Program, cp: CProgram, s: Stmt, flow: Flow, cur: Table, g: Gen,
                                 st: Store, f: Flags, clean: bool, fuel: nat)
    requires s.If? && Compiled(p, cp) && Tidy(p, s) && Apart(s, cur) && Ready(p, s, flow, cur, g, f, clean)
    requires Steady(p, s, flow.exec, cur, clean)
    ensures Matches(flow, Alias(g, flow.exec), f, clean, clean || Resets(p, s), Exec(p, s, st, fuel),
                    CExecSeq(cp, Emit(p, s, flow, cur, g).code, st, f, fuel))
    decreases fuel, s, 1
  {
    hide Emit, CExec, Steady;
    EmitAssembled(p, s, flow, cur, g);
    var ps := Parts(s, cur);
    if s.cond.folded != Unknown {
      if ps != [] {
        TidyIsItem(p, s);
        PartInherits(p, s, cur, 0, flow.exec);
        PartSteady(p, s, flow.exec, cur, clean, 0);
        EmitOne(p, ps[0], s, flow, g);
        Sim(p, cp, ps[0].stmt, flow, ps[0].table, g, st, f, clean, fuel);
        assert Exec(p, s, st, fuel) == Exec(p, ps[0].stmt, st, fuel);
        assert Resets(p, s) == Resets(p, ps[0].stmt);
      }
    } else {
      SimTestedIf(p, cp, s, flow, cur, g, st, f, clean, fuel);
    }
  }

  /** The text behind the first statement of a tidy one does nothing where the flag is not set. */
  lemma QuietTest(p: Program, cp: CProgram, s: Stmt, flow: Flow, code: seq<CStmt>, st: Store, f: Flags, fuel: nat)
    requires Shaped(p, s, flow, code) && code != []
    requires FormOf(p, s).Tested? ==> flow.exec in f && !Raised(flow, f)
    ensures code == [code[0]] + code[1..]
    ensures CExecSeq(cp, code[1..], st, f, fuel) == Some(CRun(CNormal, st, f))
  {
    if FormOf(p, s).Tested? {
      assert code[1..] == [code[1]];
      SeqOne(cp, code[1], st, f, fuel);
    }
  }

  lemma IfRun(cp: CProgram, code: seq<CStmt>, test: Store -> bool, thn: seq<CStmt>, els: Option<seq<CStmt>>,
              st: Store, f: Flags, fuel: nat)
    requires OwnBranches(code, OnStore(test), thn, els) && (els.Some? ==> |thn| == 1)
    ensures els.None? ==> CExecSeq(cp, code, st, f, fuel) == CExecSeq(cp, if test(st) then thn else thn[1..], st, f, fuel)
    ensures els.Some? && !test(st) ==> CExecSeq(cp, code, st, f, fuel) == CExecSeq(cp, els.value, st, f, fuel)
    ensures els.Some? && test(st) ==>
              CExecSeq(cp, code, st, f, fuel) ==
              match CExecSeq(cp, thn, st, f, fuel)
              case None => None
              case Some(r) =>
                if r.outcome == CNormal then CExecSeq(cp, els.value[1..], r.store, r.flags, fuel) else Some(r)
  {
    hide CExec;
    CExecOfIf(cp, code[0], st, f, fuel);
    var rest := thn[1..] + if els.Some? then els.value[1..] else [];
    assert code[1..] == rest;
    if els.None? {
      assert rest == thn[1..];
    } else {
      assert rest == els.value[1..] && thn[1..] == [];
    }
  }

  lemma {:induction false} SimTestedIf(p: Program, cp: CProgram, s: Stmt, flow: Flow, cur: Table, g: Gen,
                                       st: Store, f: Flags, clean: bool, fuel: nat)
    requires s.If? && s.cond.folded.Unknown?
    requires Compiled(p, cp) && Tidy(p, s) && Apart(s, cur) && Ready(p, s, flow, cur, g, f, clean)
    requires Steady(p, s, flow.exec, cur, clean)
    ensures Matches(flow, Alias(g, flow.exec), f, clean, clean || Resets(p, s), Exec(p, s, st, fuel),
                    CExecSeq(cp, Emit(p, s, flow, cur, g).code, st, f, fuel))
    decreases fuel, s, 0, 1
  {
    hide Exec, CExec, Emit, Needs, Clobbers, Apart, Steady, CExecSeq, Compiled, FormOf, ElseForm, Closed;
    var thn, els, code := ThenText(p, s, flow, g), ElseText(p, s, flow, cur, g), Emit(p, s, flow, cur, g).code;
    ElseBelongs(p, s, flow, cur, g);
    ThenLength(p, s, flow, g);
    ExecOfIf(p, s, st, fuel);
    IfRun(cp, code, s.cond.test, thn, els, st, f, fuel);
    if s.cond.test(st) {
      SimThen(p, cp, s, flow, cur, g, st, f, clean, fuel);
      var c := CExecSeq(cp, thn, st, f, fuel);
      if els.Some? && c.Some? && c.value.outcome == CNormal {
        ElseTest(p, cp, s, flow, cur, g, f, clean, c.value, fuel);
      }
    } else if els.None? {
      NoBranch(p, cp, s, flow, cur, g, st, f, clean, fuel);
    } else {
      SimElse(p, cp, s, flow, cur, g, st, f, clean, fuel);
    }
  }

  lemma ThenLength(p: Program, s: Stmt, flow: Flow, g: Gen)
    requires s.If? && s.cond.folded.Unknown? && Tidy(p, s)
    ensures !s.els.NoElse? ==> |ThenText(p, s, flow, g)| == 1
  {
    hide Emit;
    EmitShape(p, s.thn, flow, s.thenTable, g);
  }

  lemma {:induction false} SimThen(p: Program, cp: CProgram, s: Stmt, flow: Flow, cur: Table, g: Gen,
                                   st: Store, f: Flags, clean: bool, fuel: nat)
    requires s.If? && s.cond.folded.Unknown?
    requires Compiled(p, cp) && Tidy(p, s) && Apart(s, cur) && Ready(p, s, flow, cur, g, f, clean)
    requires Steady(p, s, flow.exec, cur, clean)
    ensures var r, c := Exec(p, s.thn, st, fuel), CExecSeq(cp, ThenText(p, s, flow, g), st, f, fuel);
            Matches(flow, Alias(g, flow.exec), f, clean, clean || Resets(p, s.thn), r, c)
            && Matches(flow, Alias(g, flow.exec), f, clean, clean || Resets(p, s), r, c)
    decreases fuel, s, 0, 0
  {
    hide Exec, CExec, Emit, Needs, Clobbers, Apart, Steady, CExecSeq, Compiled, Tidy;
    var l := Alias(g, flow.exec);
    TidyIsItem(p, s);
    PartInherits(p, s, cur, 0, flow.exec);
    PartSteady(p, s, flow.exec, cur, clean, 0);
    Sim(p, cp, s.thn, flow, s.thenTable, g, st, f, clean, fuel);
    MatchesToo(flow, l, l, f, clean, clean || Resets(p, s.thn), clean || Resets(p, s),
               Exec(p, s.thn, st, fuel), CExecSeq(cp, ThenText(p, s, flow, g), st, f, fuel));
  }

  lemma {:induction false} SimElse(p: Program, cp: CProgram, s: Stmt, flow: Flow, cur: Table, g: Gen,
                                   st: Store, f: Flags, clean: bool, fuel: nat)
    requires s.If? && s.cond.folded.Unknown? && !s.els.NoElse?
    requires Compiled(p, cp) && Tidy(p, s) && Apart(s, cur) && Ready(p, s, flow, cur, g, f, clean)
    requires Steady(p, s, flow.exec, cur, clean)
    ensures var els := ElseText(p, s, flow, cur, g);
            els.Some? && Matches(flow, Alias(g, flow.exec), f, clean, clean || Resets(p, s), ExecElse(p, s.els, st, fuel),
                                 CExecSeq(cp, els.value, st, f, fuel))
    decreases fuel, s, 0, 0
  {
    hide Exec, CExec, Emit, Needs, Clobbers, Apart, Steady, CExecSeq, Compiled, Tidy;
    var x, e := Parts(s, cur)[1], Emit(p, s.thn, flow, s.thenTable, g);
    TidyIsItem(p, s);
    PartInherits(p, s, cur, 1, flow.exec);
    PartSteady(p, s, flow.exec, cur, clean, 1);
    EmitKeeps(p, s.thn, flow, s.thenTable, g, flow.exec);
    PartInherits(p, s, cur, 0, flow.exec);
    Sim(p, cp, x.stmt, flow, x.table, e.gen, st, f, clean, fuel);
    assert ElseResets(p, s.els) == Resets(p, x.stmt);
    MatchesToo(flow, Alias(e.gen, flow.exec), Alias(g, flow.exec), f, clean, clean || Resets(p, x.stmt),
               clean || Resets(p, s), Exec(p, x.stmt, st, fuel),
               CExecSeq(cp, ElseText(p, s, flow, cur, g).value, st, f, fuel));
  }

  /** Behind a branch the test of a call in the other one. */
  lemma ElseTest(p: Program, cp: CProgram, s: Stmt, flow: Flow, cur: Table, g: Gen, f: Flags, clean: bool, c: CRun, fuel: nat)
    requires s.If? && s.cond.folded.Unknown? && !s.els.NoElse? && Tidy(p, s)
    requires Ready(p, s, flow, cur, g, f, clean) && Steady(p, s, flow.exec, cur, clean)
    requires Kept(flow, f, c.flags) && (clean || Resets(p, s.thn) ==> !Raised(flow, c.flags))
    ensures var els := ElseText(p, s, flow, cur, g);
            els.Some? && els.value != [] &&
            CExecSeq(cp, els.value[1..], c.store, c.flags, fuel) == Some(CRun(CNormal, c.store, c.flags))
  {
    hide Emit, CExec, CExecSeq, FormOf;
    var x := ElseParts(s.els, cur, true)[0];
    var e := Emit(p, s.thn, flow, s.thenTable, g);
    EmitShape(p, x.stmt, flow, x.table, e.gen);
    assert ElseForm(p, s.els) == FormOf(p, x.stmt) && FitsIf(p, s.thn, s.els) && TestSteady(p, s, clean);
    if FormOf(p, x.stmt).Tested? {
      TestedBranchNeeds(p, s, cur, flow.exec);
    }
    QuietTest(p, cp, x.stmt, flow, ElseText(p, s, flow, cur, g).value, c.store, c.flags, fuel);
  }

  /** Past the branch to the test of the call that is in it. */
  lemma NoBranch(p: Program, cp: CProgram, s: Stmt, flow: Flow, cur: Table, g: Gen, st: Store, f: Flags, clean: bool, fuel: nat)
    requires s.If? && s.cond.folded.Unknown? && s.els.NoElse? && Tidy(p, s)
    requires Ready(p, s, flow, cur, g, f, clean) && Steady(p, s, flow.exec, cur, clean)
    ensures var thn := ThenText(p, s, flow, g);
            thn != [] && CExecSeq(cp, thn[1..], st, f, fuel) == Some(CRun(CNormal, st, f))
  {
    hide Emit, CExec, CExecSeq, FormOf;
    EmitShape(p, s.thn, flow, s.thenTable, g);
    assert FitsIf(p, s.thn, s.els) && TestSteady(p, s, clean);
    if FormOf(p, s.thn).Tested? {
      TestedBranchNeeds(p, s, cur, flow.exec);
    }
    QuietTest(p, cp, s.thn, flow, ThenText(p, s, flow, g), st, f, fuel);
  }

  lemma ExecOfIf(p: Program, s: Stmt, st: Store, fuel: nat)
    requires s.If?
    ensures Exec(p, s, st, fuel) ==
            if s.cond.test(st) then Exec(p, s.thn, st, fuel) else ExecElse(p, s.els, st, fuel)
  {
  }

  lemma CExecOfIf(cp: CProgram, c: CStmt, st: Store, f: Flags, fuel: nat)
    requires c.CIf?
    ensures CExec(cp, c, st, f, fuel) ==
            match Decide(c.cond, st, f)
            case None => None
            case Some(b) =>
              if b then CExec(cp, c.thn, st, f, fuel)
              else if c.els.Some? then CExec(cp, c.els.value, st, f, fuel)
              else Some(CRun(CNormal, st, f))
  {
  }

  lemma {:induction false} SimLoop(p: Program, cp: CProgram, test: Store -> bool, update: Store -> Store, whole: Stmt,
                                   cwhole: CStmt, x: Part, flow: Flow, g: Gen,
                                   st: Store, f: Flags, clean: bool, fuel: nat)
    requires Compiled(p, cp) && x.stmt < whole && Tidy(p, x.stmt) && Steady(p, x.stmt, flow.exec, x.table, clean)
    requires Apart(x.stmt, x.table) && Ready(p, x.stmt, flow, x.table, g, f, clean)
    requires cwhole.CLoop? && Emit(p, x.stmt, flow, x.table, g).code == [cwhole.body]
    ensures Matches(flow, Alias(g, flow.exec), f, clean, clean, ExecLoop(p, test, update, x.stmt, whole, st, fuel),
                    CExecLoop(cp, test, update, cwhole.body, cwhole, st, f, fuel))
    decreases fuel, whole, 0
  {
    hide Exec, CExec, Emit, Tidy, TidyItem, Needs, Clobbers, Apart, Steady, Resets, Compiled, CExecSeq, Alias;
    if !test(st) {
      return;
    }
    TidyIsItem(p, x.stmt);
    Sim(p, cp, x.stmt, flow, x.table, g, st, f, clean, fuel);
    SeqOne(cp, cwhole.body, st, f, fuel);
    var l, r, c := Alias(g, flow.exec), Exec(p, x.stmt, st, fuel), CExec(cp, cwhole.body, st, f, fuel);
    if r.None? || (r.value.outcome != Normal && r.value.outcome != Continued) {
      MatchesAfterLoop(flow, l, f, clean, clean || Resets(p, x.stmt), r, c);
      return;
    } else if fuel == 0 {
      return;
    } else {
      var st1, f1 := update(r.value.store), c.value.flags;
      assert Ready(p, x.stmt, flow, x.table, g, f1, clean);
      SimLoop(p, cp, test, update, whole, cwhole, x, flow, g, st1, f1, clean, fuel - 1);
      MatchesAfter(flow, l, f, f1, clean, clean, clean, ExecLoop(p, test, update, x.stmt, whole, st1, fuel - 1),
                   CExecLoop(cp, test, update, cwhole.body, cwhole, st1, f1, fuel - 1));
      return;
    }
  }

  lemma {:induction false} SimLoops(p: Program, cp: CProgram, s: Stmt, flow: Flow, cur: Table, g: Gen,
                                    st: Store, f: Flags, clean: bool, fuel: nat)
    requires (s.While? || s.For?) && Compiled(p, cp) && Tidy(p, s) && Apart(s, cur) && Ready(p, s, flow, cur, g, f, clean)
    requires Steady(p, s, flow.exec, cur, clean)
    ensures Matches(flow, Alias(g, flow.exec), f, clean, clean || Resets(p, s), Exec(p, s, st, fuel),
                    CExecSeq(cp, Emit(p, s, flow, cur, g).code, st, f, fuel))
    decreases fuel, s, 1
  {
    hide Emit, Steady, Needs, Clobbers, Apart, Matches, FormOf;
    EmitAssembled(p, s, flow, cur, g);
    var x := Parts(s, cur)[0];
    TidyIsItem(p, s);
    PartInherits(p, s, cur, 0, flow.exec);
    PartSteady(p, s, flow.exec, cur, clean, 0);
    EmitOne(p, x, s, flow, g);
    EmitShape(p, x.stmt, flow, x.table, g);
    var body, code := Emit(p, x.stmt, flow, x.table, g).code, Emit(p, s, flow, cur, g).code;
    assert body == [body[0]] && code == [code[0]];
    SeqOne(cp, code[0], st, f, fuel);
    if s.While? {
      SimLoop(p, cp, s.guard, IDENTITY, s, code[0], x, flow, g, st, f, clean, fuel);
    } else {
      SimLoop(p, cp, s.test, s.update, s, code[0], x, flow, g, s.init(st), f, clean, fuel);
    }
  }

  // ----- lists of statements -----

  /** What the statements of a list need in common. */
  ghost predicate ListReady(p: Program, ss: seq<Stmt>, whole: Stmt, flow: Flow, cur: Table, g: Gen, f: Flags, clean: bool) {
    && (forall x <- ss :: x < whole && TidyItem(p, x))
    && AllApart(ListParts(ss, cur), whole)
    && (AnyNeeds(p, ListParts(ss, cur), whole, flow.exec) ==> flow.exec in f)
    && (clean ==> !Raised(flow, f))
    && (flow.throwing.Some? ==>
          && flow.throwing.value == flow.exec && clean
          && Lookup(f, flow.exec) == Some(false)
          && Alias(g, flow.exec) < g.next
          && !AnyClobbers(ListParts(ss, cur), whole, flow.exec))
  }

  /** The first statement of a list and the rest. */
  lemma ListStep(p: Program, ss: seq<Stmt>, whole: Stmt, flow: Flow, cur: Table, g: Gen, f: Flags, clean: bool)
    requires ss != [] && ListReady(p, ss, whole, flow, cur, g, f, clean)
    ensures var e := Emit(p, ss[0], flow, cur, g);
            && Apart(ss[0], cur) && Ready(p, ss[0], flow, cur, g, f, clean)
            && (flow.throwing.Some? ==> Alias(e.gen, flow.exec) == Alias(g, flow.exec))
            && ListReady(p, ss[1..], whole, flow, cur, e.gen, f, clean)
  {
    hide Emit, TidyItem, Tidy, Apart, Clobbers, Needs, Alias, ListParts, AllApart, AnyClobbers, AnyNeeds;
    EmitKeeps(p, ss[0], flow, cur, g, flow.exec);
    ListStepParts(p, ss, whole, flow.exec, cur);
  }

  lemma ListStepParts(p: Program, ss: seq<Stmt>, whole: Stmt, exec: Table, cur: Table)
    requires ss != [] && forall x <- ss :: x < whole
    ensures forall x <- ss[1..] :: x < whole
    ensures var ps, rest := ListParts(ss, cur), ListParts(ss[1..], cur);
            && (AllApart(ps, whole) <==> Apart(ss[0], cur) && AllApart(rest, whole))
            && (AnyClobbers(ps, whole, exec) <==> Clobbers(ss[0], exec, cur) || AnyClobbers(rest, whole, exec))
            && (AnyNeeds(p, ps, whole, exec) <==> Needs(p, ss[0], cur, exec) || AnyNeeds(p, rest, whole, exec))
  {
    hide Apart, Clobbers, Needs;
    var ps := ListParts(ss, cur);
    assert ps[1..] == ListParts(ss[1..], cur) && ps[0] == Part(ss[0], cur);
  }

  lemma ListMembers(p: Program, ss: seq<Stmt>, whole: Stmt, flow: Flow, cur: Table, g: Gen, f: Flags, clean: bool)
    requires ListReady(p, ss, whole, flow, cur, g, f, clean)
    ensures forall x <- ss :: x < whole && TidyItem(p, x)
  {
  }

  lemma ListStepSteady(p: Program, ss: seq<Stmt>, whole: Stmt, exec: Table, cur: Table, clean: bool)
    requires ss != [] && forall x <- ss :: x < whole
    ensures ListSteady(p, ListParts(ss, cur), whole, exec, clean) ==>
              && Steady(p, ss[0], exec, cur, clean)
              && ListSteady(p, ListParts(ss[1..], cur), whole, exec, clean || Resets(p, ss[0]))
    ensures ArmsSteady(p, ListParts(ss, cur), whole, exec, clean) ==>
              && (ss[0].Case? || ss[0].Default? ==> ListSteady(p, ListParts(ss, cur), whole, exec, clean))
              && ArmsSteady(p, ListParts(ss[1..], cur), whole, exec, clean)
  {
    hide Steady, Resets;
    assert ListParts(ss, cur)[1..] == ListParts(ss[1..], cur);
  }

  lemma SimNothing(p: Program, cp: CProgram, whole: Stmt, flow: Flow, cur: Table, g: Gen,
                   st: Store, f: Flags, clean: bool, fuel: nat)
    requires ListReady(p, [], whole, flow, cur, g, f, clean)
    ensures ListCode(p, [], whole, flow, cur, g) == [] && !SomeResets(p, [])
    ensures Matches(flow, Alias(g, flow.exec), f, clean, clean, ExecSeq(p, [], st, fuel),
                    CExecSeq(cp, ListCode(p, [], whole, flow, cur, g), st, f, fuel))
  {
    assert ListParts([], cur) == [];
  }

  lemma ListReadyAfter(p: Program, ss: seq<Stmt>, whole: Stmt, flow: Flow, cur: Table, g: Gen,
                       f0: Flags, f1: Flags, clean: bool, now: bool)
    requires ListReady(p, ss, whole, flow, cur, g, f0, clean) && Kept(flow, f0, f1)
    requires (now ==> !Raised(flow, f1)) && (clean ==> now)
    requires flow.throwing.Some? ==> Lookup(f1, flow.exec) == Some(false)
    ensures ListReady(p, ss, whole, flow, cur, g, f1, now)
  {
  }

  lemma {:induction false} SimSeq(p: Program, cp: CProgram, ss: seq<Stmt>, whole: Stmt, flow: Flow, cur: Table, g: Gen,
                                  st: Store, f: Flags, clean: bool, fuel: nat)
    requires Compiled(p, cp) && ListReady(p, ss, whole, flow, cur, g, f, clean)
    requires (forall x <- ss :: x < whole) && ListSteady(p, ListParts(ss, cur), whole, flow.exec, clean)
    ensures Matches(flow, Alias(g, flow.exec), f, clean, clean || SomeResets(p, ss), ExecSeq(p, ss, st, fuel),
                    CExecSeq(cp, ListCode(p, ss, whole, flow, cur, g), st, f, fuel))
    decreases fuel, whole, 1, |ss|, 0
  {
    hide *;
    if ss == [] {
      SimNothing(p, cp, whole, flow, cur, g, st, f, clean, fuel);
      return;
    }
    ListStep(p, ss, whole, flow, cur, g, f, clean);
    ListMembers(p, ss, whole, flow, cur, g, f, clean);
    ListStepCode(p, ss, whole, flow, cur, g);
    ListStepSteady(p, ss, whole, flow.exec, cur, clean);
    var e, now := Emit(p, ss[0], flow, cur, g), clean || Resets(p, ss[0]);
    var l, rest := Alias(g, flow.exec), ListCode(p, ss[1..], whole, flow, cur, e.gen);
    assert ss[0] in ss;
    Sim(p, cp, ss[0], flow, cur, g, st, f, clean, fuel);
    var r, c := Exec(p, ss[0], st, fuel), CExecSeq(cp, e.code, st, f, fuel);
    MatchedEnd(flow, l, f, clean, now, r, c);
    if r.Some? && r.value.outcome == Normal {
      var st1, f1 := r.value.store, c.value.flags;
      ListReadyAfter(p, ss[1..], whole, flow, cur, e.gen, f, f1, clean, now);
      SimSeq(p, cp, ss[1..], whole, flow, cur, e.gen, st1, f1, now, fuel);
      MatchesToo(flow, Alias(e.gen, flow.exec), l, f1, now, now || SomeResets(p, ss[1..]), now || SomeResets(p, ss[1..]),
                 ExecSeq(p, ss[1..], st1, fuel), CExecSeq(cp, rest, st1, f1, fuel));
    }
    SeqMatches(p, cp, ss, e.code, rest, flow, l, st, f, clean, fuel);
  }

  lemma MatchedEnd(flow: Flow, l: Label, f: Flags, clean: bool, now: bool, r: Option<Run>, c: Option<CRun>)
    requires Matches(flow, l, f, clean, now, r, c)
    ensures r.Some? && r.value.outcome == Normal ==>
              && c.Some? && c.value.store == r.value.store && Kept(flow, f, c.value.flags) && (now ==> !Raised(flow, c.value.flags))
              && (flow.throwing.Some? ==> Lookup(c.value.flags, flow.exec) == Some(false))
  {
  }

  /** The first statement of a list and then the rest. */
  lemma SeqMatches(p: Program, cp: CProgram, ss: seq<Stmt>, a: seq<CStmt>, b: seq<CStmt>, flow: Flow, l: Label,
                   st: Store, f: Flags, clean: bool, fuel: nat)
    requires ss != []
    requires Matches(flow, l, f, clean, clean || Resets(p, ss[0]), Exec(p, ss[0], st, fuel), CExecSeq(cp, a, st, f, fuel))
    requires var r, c, now := Exec(p, ss[0], st, fuel), CExecSeq(cp, a, st, f, fuel), clean || Resets(p, ss[0]);
             r.Some? && r.value.outcome == Normal ==>
               c.Some? && Matches(flow, l, c.value.flags, now, now || SomeResets(p, ss[1..]),
                                  ExecSeq(p, ss[1..], r.value.store, fuel),
                                  CExecSeq(cp, b, c.value.store, c.value.flags, fuel))
    ensures Matches(flow, l, f, clean, clean || SomeResets(p, ss), ExecSeq(p, ss, st, fuel), CExecSeq(cp, a + b, st, f, fuel))
  {
    hide Exec, CExec, Resets;
    SeqThen(cp, a, b, st, f, fuel);
  }

  lemma ListLabelFree(p: Program, ss: seq<Stmt>, whole: Stmt, flow: Flow, cur: Table, g: Gen, f: Flags, clean: bool)
    requires ListReady(p, ss, whole, flow, cur, g, f, clean)
    ensures var code := ListCode(p, ss, whole, flow, cur, g); forall l :: FindLabel(code, l) == |code|
  {
    hide Emit, TidyItem, Tidy, Apart, Clobbers, Needs;
    var avail := {Alias(g, flow.exec)};
    EmitPartsSealed(p, ListParts(ss, cur), whole, flow, g, avail);
    ConcatSealed(EmitParts(p, ListParts(ss, cur), whole, flow, g).0, avail);
    NoTopLabels(ListCode(p, ss, whole, flow, cur, g), avail);
  }

  lemma BlockIsList(p: Program, s: Stmt, flow: Flow, cur: Table, g: Gen, f: Flags, clean: bool)
    requires (s.Block? || s.Switch?) && TidyItem(p, s) && Apart(s, cur) && Ready(p, s, flow, cur, g, f, clean)
    ensures var ss := if s.Block? then s.stmts else s.cases;
            && ListReady(p, ss, s, flow, cur, g, f, clean)
            && Emit(p, s, flow, cur, g).code ==
               [if s.Block? then CBlock(None, ListCode(p, ss, s, flow, cur, g))
                else CSwitch(s.selector, ListCode(p, ss, s, flow, cur, g))]
  {
    var ss := if s.Block? then s.stmts else s.cases;
    forall x <- ss ensures x < s && TidyItem(p, x) {
      TidyIsItem(p, x);
    }
    ListJoined(p, ss, s, flow, cur, g);
  }

  lemma {:induction false} SimBlock(p: Program, cp: CProgram, s: Stmt, flow: Flow, cur: Table, g: Gen,
                                    st: Store, f: Flags, clean: bool, fuel: nat)
    requires s.Block? && Compiled(p, cp) && TidyItem(p, s) && Apart(s, cur) && Ready(p, s, flow, cur, g, f, clean)
    requires Steady(p, s, flow.exec, cur, clean)
    ensures Matches(flow, Alias(g, flow.exec), f, clean, clean || Resets(p, s), Exec(p, s, st, fuel),
                    CExecSeq(cp, Emit(p, s, flow, cur, g).code, st, f, fuel))
    decreases fuel, s, 1, |s.stmts| + 1
  {
    BlockIsList(p, s, flow, cur, g, f, clean);
    var items := ListCode(p, s.stmts, s, flow, cur, g);
    hide Emit, TidyItem, Tidy, Apart, Clobbers, Needs, Matches;
    SimSeq(p, cp, s.stmts, s, flow, cur, g, st, f, clean, fuel);
    ListLabelFree(p, s.stmts, s, flow, cur, g, f, clean);
    BlockWithoutLabels(cp, items, 0, st, f, fuel);
    SeqOne(cp, CBlock(None, items), st, f, fuel);
  }

  // ----- switch labels -----

  lemma FirstCArmConcat(x: seq<CStmt>, y: seq<CStmt>, a: Arm)
    ensures FirstCArm(x + y, a) == if FirstCArm(x, a) < |x| then FirstCArm(x, a) else |x| + FirstCArm(y, a)
  {
    if x == [] {
      assert x + y == y;
    } else {
      assert (x + y)[1..] == x[1..] + y;
      FirstCArmConcat(x[1..], y, a);
    }
  }

  lemma NoArmFound(items: seq<CStmt>, a: Arm)
    requires NoLabels(items)
    ensures FirstCArm(items, a) == |items|
  {
  }

  /** The labels of a switch item stand in front of its text, and are the ones of the source. */
  lemma {:induction false} ItemArms(p: Program, s: Stmt, flow: Flow, cur: Table, g: Gen, a: Arm)
    requires TidyItem(p, s)
    ensures var code := Emit(p, s, flow, cur, g).code;
            var k := FirstCArm(code, a);
            && (k < |code| <==> HasArm(s, a))
            && (k < |code| ==> forall j | 0 <= j < k :: code[j].CCase? || code[j].CDefault?)
  {
    if s.Case? || s.Default? {
      var body, c := Parts(s, cur)[0].stmt, if s.Case? then CCase(s.value) else CDefault;
      EmitOne(p, Part(body, cur), s, flow, g);
      ItemArms(p, body, flow, cur, g, a);
      FirstCArmConcat([c], Emit(p, body, flow, cur, g).code, a);
      assert [c][1..] == [];
    } else {
      EmitShape(p, s, flow, cur, g);
      NoArmFound(Emit(p, s, flow, cur, g).code, a);
    }
  }

  lemma SkipArms(cp: CProgram, items: seq<CStmt>, k: nat, st: Store, f: Flags, fuel: nat)
    requires k <= |items| && forall j | 0 <= j < k :: items[j].CCase? || items[j].CDefault?
    ensures CExecSeq(cp, items[k..], st, f, fuel) == CExecSeq(cp, items, st, f, fuel)
    decreases k
  {
    if k == 0 {
      assert items[k..] == items;
    } else {
      SkipArms(cp, items[1..], k - 1, st, f, fuel);
      assert items[1..][k - 1..] == items[k..];
    }
  }

  /** Where the first label of a list is, in source and text. */
  lemma ArmStep(p: Program, ss: seq<Stmt>, whole: Stmt, flow: Flow, cur: Table, g: Gen, a: Arm)
    requires ss != [] && forall x <- ss :: x < whole && TidyItem(p, x)
    ensures forall x <- ss[1..] :: x < whole
    ensures var e, items := Emit(p, ss[0], flow, cur, g), ListCode(p, ss, whole, flow, cur, g);
            var rest := ListCode(p, ss[1..], whole, flow, cur, e.gen);
            var k, ck, j, cj := FirstArm(ss, a), FirstCArm(items, a), FirstArm(ss[1..], a), FirstCArm(rest, a);
            && ck <= |items| && cj <= |rest| && k <= |ss| && j < |ss|
            && if HasArm(ss[0], a) then
                 && k == 0 && ck < |items| && (ss[0].Case? || ss[0].Default?) && ss[k..] == ss
                 && forall i | 0 <= i < ck :: items[i].CCase? || items[i].CDefault?
               else
                 && (k < |ss| <==> j < |ss[1..]|) && (ck < |items| <==> cj < |rest|)
                 && ss[k..] == ss[1..][j..] && items[ck..] == rest[cj..]
  {
    hide Emit, TidyItem, Tidy, ListCode, ListGen, FirstCArm;
    ListStepCode(p, ss, whole, flow, cur, g);
    var e := Emit(p, ss[0], flow, cur, g);
    var rest := ListCode(p, ss[1..], whole, flow, cur, e.gen);
    assert ss[0] in ss;
    ItemArms(p, ss[0], flow, cur, g, a);
    FirstCArmConcat(e.code, rest, a);
    SuffixOfList(ss, e.code, rest, FirstArm(ss[1..], a), FirstCArm(rest, a));
    assert ss[0..] == ss;
  }

  /** Entering a list at a label. */
  lemma {:induction false} SimFrom(p: Program, cp: CProgram, ss: seq<Stmt>, whole: Stmt, flow: Flow, cur: Table, g: Gen,
                                   st: Store, f: Flags, clean: bool, fuel: nat, a: Arm)
    requires Compiled(p, cp) && ListReady(p, ss, whole, flow, cur, g, f, clean)
    requires (forall x <- ss :: x < whole) && ArmsSteady(p, ListParts(ss, cur), whole, flow.exec, clean)
    ensures var items := ListCode(p, ss, whole, flow, cur, g);
            var k, ck := FirstArm(ss, a), FirstCArm(items, a);
            && (k < |ss| <==> ck < |items|)
            && (k < |ss| ==> Matches(flow, Alias(g, flow.exec), f, clean, clean, ExecSeq(p, ss[k..], st, fuel),
                                     CExecSeq(cp, items[ck..], st, f, fuel)))
    decreases fuel, whole, 1, |ss| + 1
  {
    hide *;
    if ss == [] {
      SimNothing(p, cp, whole, flow, cur, g, st, f, clean, fuel);
      return;
    }
    ListStep(p, ss, whole, flow, cur, g, f, clean);
    ListMembers(p, ss, whole, flow, cur, g, f, clean);
    ListStepSteady(p, ss, whole, flow.exec, cur, clean);
    ArmStep(p, ss, whole, flow, cur, g, a);
    var items, e := ListCode(p, ss, whole, flow, cur, g), Emit(p, ss[0], flow, cur, g);
    if HasArm(ss[0], a) {
      SimHere(p, cp, ss, whole, flow, cur, g, st, f, clean, fuel, FirstCArm(items, a));
      return;
    }
    SimFrom(p, cp, ss[1..], whole, flow, cur, e.gen, st, f, clean, fuel, a);
    if FirstArm(ss, a) < |ss| {
      var rest := ListCode(p, ss[1..], whole, flow, cur, e.gen);
      MatchesToo(flow, Alias(e.gen, flow.exec), Alias(g, flow.exec), f, clean, clean, clean,
                 ExecSeq(p, ss[1..][FirstArm(ss[1..], a)..], st, fuel),
                 CExecSeq(cp, rest[FirstCArm(rest, a)..], st, f, fuel));
    }
  }

  /** Entering a list at a label of its first statement. */
  lemma {:induction false} SimHere(p: Program, cp: CProgram, ss: seq<Stmt>, whole: Stmt, flow: Flow, cur: Table, g: Gen,
                                   st: Store, f: Flags, clean: bool, fuel: nat, k: nat)
    requires Compiled(p, cp) && ListReady(p, ss, whole, flow, cur, g, f, clean)
    requires (forall x <- ss :: x < whole) && ListSteady(p, ListParts(ss, cur), whole, flow.exec, clean)
    requires var items := ListCode(p, ss, whole, flow, cur, g);
             k <= |items| && forall j | 0 <= j < k :: items[j].CCase? || items[j].CDefault?
    ensures Matches(flow, Alias(g, flow.exec), f, clean, clean, ExecSeq(p, ss, st, fuel),
                    CExecSeq(cp, ListCode(p, ss, whole, flow, cur, g)[k..], st, f, fuel))
    decreases fuel, whole, 1, |ss|, 1
  {
    hide ExecSeq, CExecSeq, ListReady, ListCode, Matches, ListSteady, SomeResets;
    var l, items := Alias(g, flow.exec), ListCode(p, ss, whole, flow, cur, g);
    SimSeq(p, cp, ss, whole, flow, cur, g, st, f, clean, fuel);
    SkipArms(cp, items, k, st, f, fuel);
    MatchesToo(flow, l, l, f, clean, clean || SomeResets(p, ss), clean, ExecSeq(p, ss, st, fuel),
               CExecSeq(cp, items, st, f, fuel));
  }

  lemma SuffixOfList(ss: seq<Stmt>, front: seq<CStmt>, rest: seq<CStmt>, k: nat, ck: nat)
    requires ss != [] && k <= |ss| - 1 && ck <= |rest|
    ensures ss[k + 1..] == ss[1..][k..] && (front + rest)[|front| + ck..] == rest[ck..]
  {
  }

  lemma ExecOfSwitch(p: Program, cp: CProgram, s: Stmt, items: seq<CStmt>, st: Store, f: Flags, fuel: nat)
    requires s.Switch?
    ensures Exec(p, s, st, fuel) == AfterLoop(ExecSeq(p, s.cases[FindCase(s.cases, s.selector(st))..], st, fuel))
    ensures CExec(cp, CSwitch(s.selector, items), st, f, fuel) ==
            AfterCLoop(CExecBlock(cp, items, FindEntry(items, s.selector(st)), st, f, fuel))
  {
  }

  /** A switch without a fitting label does nothing. */
  lemma SimPastEnd(cp: CProgram, p: Program, ss: seq<Stmt>, items: seq<CStmt>, flow: Flow, l: Label,
                   s: Stmt, cur: Table, g: Gen, st: Store, f: Flags, clean: bool, fuel: nat)
    requires Ready(p, s, flow, cur, g, f, clean)
    ensures Matches(flow, l, f, clean, clean, ExecSeq(p, ss[|ss|..], st, fuel),
                    CExecSeq(cp, items[|items|..], st, f, fuel))
  {
  }

  lemma {:induction false} SimSwitch(p: Program, cp: CProgram, s: Stmt, flow: Flow, cur: Table, g: Gen,
                                     st: Store, f: Flags, clean: bool, fuel: nat)
    requires s.Switch? && Compiled(p, cp) && TidyItem(p, s) && Apart(s, cur) && Ready(p, s, flow, cur, g, f, clean)
    requires Steady(p, s, flow.exec, cur, clean)
    ensures Matches(flow, Alias(g, flow.exec), f, clean, clean || Resets(p, s), Exec(p, s, st, fuel),
                    CExecSeq(cp, Emit(p, s, flow, cur, g).code, st, f, fuel))
    decreases fuel, s, 1, |s.cases| + 2
  {
    hide Exec, CExec, CExecSeq, CExecBlock, ExecSeq, Emit, TidyItem, Tidy, Apart, Clobbers, Needs, Ready, ListReady,
      ListCode, Matches, FindLabel, FirstArm, FirstCArm, ArmsSteady;
    BlockIsList(p, s, flow, cur, g, f, clean);
    var ss, items, v := s.cases, ListCode(p, s.cases, s, flow, cur, g), s.selector(st);
    ExecOfSwitch(p, cp, s, items, st, f, fuel);
    SimFrom(p, cp, ss, s, flow, cur, g, st, f, clean, fuel, CaseOf(v));
    SimFrom(p, cp, ss, s, flow, cur, g, st, f, clean, fuel, DefaultArm);
    ListLabelFree(p, ss, s, flow, cur, g, f, clean);
    ListMembers(p, ss, s, flow, cur, g, f, clean);
    SimPastEnd(cp, p, ss, items, flow, Alias(g, flow.exec), s, cur, g, st, f, clean, fuel);
    var k, ck := FindCase(ss, v), FindEntry(items, v);
    var r, c := ExecSeq(p, ss[k..], st, fuel), CExecSeq(cp, items[ck..], st, f, fuel);
    assert Matches(flow, Alias(g, flow.exec), f, clean, clean, r, c);
    MatchesAfterLoop(flow, Alias(g, flow.exec), f, clean, clean, r, c);
    BlockWithoutLabels(cp, items, ck, st, f, fuel);
    SeqOne(cp, CSwitch(s.selector, items), st, f, fuel);
  }

  // ----- labels, inlined methods, try -----

  lemma {:induction false} SimLabel(p: Program, cp: CProgram, s: Stmt, flow: Flow, cur: Table, g: Gen,
                                    st: Store, f: Flags, clean: bool, fuel: nat)
    requires s.Case? || s.Default? || s.Labeled?
    requires Compiled(p, cp) && TidyItem(p, s) && Apart(s, cur) && Ready(p, s, flow, cur, g, f, clean)
    requires Steady(p, s, flow.exec, cur, clean)
    ensures Matches(flow, Alias(g, flow.exec), f, clean, clean || Resets(p, s), Exec(p, s, st, fuel),
                    CExecSeq(cp, Emit(p, s, flow, cur, g).code, st, f, fuel))
    decreases fuel, s, 1
  {
    hide *;
    LabelResets(p, s, cur);
    LabelParts(p, s, flow, cur, g, st, fuel);
    PartInherits(p, s, cur, 0, flow.exec);
    PartReady(p, s, flow, cur, g, f, clean, 0);
    PartSteady(p, s, flow.exec, cur, clean, 0);
    var body := Parts(s, cur)[0].stmt;
    Sim(p, cp, body, flow, cur, g, st, f, clean, fuel);
    var code, inner := Emit(p, s, flow, cur, g).code, Emit(p, body, flow, cur, g).code;
    MatchesToo(flow, Alias(g, flow.exec), Alias(g, flow.exec), f, clean, clean || Resets(p, body), clean || Resets(p, s),
               Exec(p, body, st, fuel), CExecSeq(cp, inner, st, f, fuel));
    if s.Labeled? {
      assert code == inner;
    } else {
      assert code[1..] == inner;
      SkipArms(cp, code, 1, st, f, fuel);
    }
  }

  lemma LabelResets(p: Program, s: Stmt, cur: Table)
    requires s.Case? || s.Default? || s.Labeled?
    ensures Arity(s) == 1 && (Resets(p, s) ==> Resets(p, Parts(s, cur)[0].stmt))
  {
  }

  lemma LabelParts(p: Program, s: Stmt, flow: Flow, cur: Table, g: Gen, st: Store, fuel: nat)
    requires s.Case? || s.Default? || s.Labeled?
    ensures var x := Parts(s, cur)[0];
            && x.table == cur
            && Exec(p, s, st, fuel) == Exec(p, x.stmt, st, fuel)
            && Emit(p, s, flow, cur, g).code ==
               (if s.Case? then [CCase(s.value)] else if s.Default? then [CDefault] else [])
               + Emit(p, x.stmt, flow, cur, g).code
  {
    EmitOne(p, Parts(s, cur)[0], s, flow, g);
  }

  lemma {:induction false} SimInline(p: Program, cp: CProgram, s: Stmt, flow: Flow, cur: Table, g: Gen,
                                     st: Store, f: Flags, clean: bool, fuel: nat)
    requires s.Inline? && Compiled(p, cp) && Tidy(p, s) && Apart(s, cur) && Ready(p, s, flow, cur, g, f, clean)
    requires Steady(p, s, flow.exec, cur, clean)
    ensures Matches(flow, Alias(g, flow.exec), f, clean, clean || Resets(p, s), Exec(p, s, st, fuel),
                    CExecSeq(cp, Emit(p, s, flow, cur, g).code, st, f, fuel))
    decreases fuel, s, 1
  {
    hide Exec, CExec, Emit, Tidy, TidyItem, Needs, Clobbers, Apart, Steady;
    InlineParts(p, s, flow, cur, g, st, fuel);
    InlineTidy(p, s, st);
    if IsEmpty(s.inlined) {
      assert Resets(p, s.inlined) == SomeResets(p, []);
      return;
    }
    TidyIsItem(p, s);
    PartInherits(p, s, cur, 0, flow.exec);
    PartSteady(p, s, flow.exec, cur, clean, 0);
    NeverEnds(p, s.inlined, Returned, s.bind(st), fuel);
    Sim(p, cp, s.inlined, flow, s.methodTable, g, s.bind(st), f, clean, fuel);
    InlineItems(p, cp, s, flow, cur, g, st, f, clean, fuel);
    SeqOne(cp, Emit(p, s, flow, cur, g).code[0], st, f, fuel);
    CExecOfBlock(cp, Emit(p, s, flow, cur, g).code[0], st, f, fuel);
  }

  lemma CExecOfBlock(cp: CProgram, c: CStmt, st: Store, f: Flags, fuel: nat)
    requires c.CBlock? && c.decl.None?
    ensures CExec(cp, c, st, f, fuel) == CExecBlock(cp, c.items, 0, st, f, fuel)
  {
  }

  lemma InlineTidy(p: Program, s: Stmt, st: Store)
    requires s.Inline? && Tidy(p, s)
    ensures !MayEnd(s.inlined, Returned) && (IsEmpty(s.inlined) ==> s.copyOut(s.bind(st)) == st)
  {
  }

  lemma InlineParts(p: Program, s: Stmt, flow: Flow, cur: Table, g: Gen, st: Store, fuel: nat)
    requires s.Inline?
    ensures IsEmpty(s.inlined) ==>
              Exec(p, s, st, fuel) == Some(Run(Normal, s.copyOut(s.bind(st)))) && Emit(p, s, flow, cur, g).code == []
    ensures !IsEmpty(s.inlined) ==>
              && Parts(s, cur) == [Part(s.inlined, s.methodTable)]
              && Emit(p, s, flow, cur, g).code ==
                 [CBlock(None, [CDo(s.bind)] + Emit(p, s.inlined, flow, s.methodTable, g).code + [CDo(s.copyOut)])]
    ensures Exec(p, s, st, fuel) ==
            match Exec(p, s.inlined, s.bind(st), fuel)
            case None => None
            case Some(r) =>
              if r.outcome == Normal || r.outcome == Returned
              then Some(Run(Normal, s.copyOut(r.store))) else Some(r)
  {
    if IsEmpty(s.inlined) {
      assert Exec(p, s.inlined, s.bind(st), fuel) == Some(Run(Normal, s.bind(st)));
    } else {
      EmitOne(p, Part(s.inlined, s.methodTable), s, flow, g);
    }
  }

  /** Running the three pieces of an inlined method. */
  lemma InlineItems(p: Program, cp: CProgram, s: Stmt, flow: Flow, cur: Table, g: Gen,
                    st: Store, f: Flags, clean: bool, fuel: nat)
    requires s.Inline? && Apart(s.inlined, s.methodTable) && Ready(p, s.inlined, flow, s.methodTable, g, f, clean)
    ensures var code := Emit(p, s.inlined, flow, s.methodTable, g).code;
            CExecBlock(cp, [CDo(s.bind)] + code + [CDo(s.copyOut)], 0, st, f, fuel) ==
            match CExecSeq(cp, code, s.bind(st), f, fuel)
            case None => None
            case Some(r) => if r.outcome == CNormal then Some(r.(store := s.copyOut(r.store))) else Some(r)
  {
    hide Emit, Needs, Clobbers, Apart;
    var code := Emit(p, s.inlined, flow, s.methodTable, g).code;
    var items := [CDo(s.bind)] + code + [CDo(s.copyOut)];
    EmitSealed(p, s.inlined, flow, s.methodTable, g, {Alias(g, flow.exec)});
    NoTopLabels(items, {Alias(g, flow.exec)});
    BlockWithoutLabels(cp, items, 0, st, f, fuel);
    SeqThen(cp, [CDo(s.bind)] + code, [CDo(s.copyOut)], st, f, fuel);
    SeqThen(cp, [CDo(s.bind)], code, st, f, fuel);
    SeqOne(cp, CDo(s.bind), st, f, fuel);
    var c := CExecSeq(cp, code, s.bind(st), f, fuel);
    if c.Some? {
      SeqOne(cp, CDo(s.copyOut), c.value.store, c.value.flags, fuel);
    }
  }

  function TryTail(flag: Flag, l: Label, handler: seq<CStmt>): (r: seq<CStmt>)
    ensures r != []
  {
    [CLabel(l)] + IfCode(OnFlag(flag), handler, None)
  }

  /** A try block is a scope for its flag: the body, the label, and the handler under a test of the flag. */
  lemma TryShape(p: Program, s: Stmt, flow: Flow, cur: Table, g: Gen, f: Flags, clean: bool)
    requires s.Try? && Tidy(p, s) && Apart(s, cur) && Ready(p, s, flow, cur, g, f, clean)
    ensures var b := EmitTryBody(p, s, cur, g);
            var h := Emit(p, s.catchBody, flow, cur, b.gen).code;
            && h != [] && Shaped(p, s.catchBody, flow, h)
            && Emit(p, s, flow, cur, g).code == [CBlock(Some(cur), b.code + TryTail(cur, g.next, h))]
            && (forall l :: FindLabel(b.code + TryTail(cur, g.next, h), l) ==
                            if l == g.next then |b.code| else |b.code + TryTail(cur, g.next, h)|)
  {
    var inner, inside := TryBodyTable(s, cur), Flow(cur, Some(cur));
    var g0, b := Gen(g.aliases[cur := g.next], g.next + 1), EmitTryBody(p, s, cur, g);
    var h := Emit(p, s.catchBody, flow, cur, b.gen).code;
    EmitShape(p, s.tryBody, inside, inner, g0);
    NothingJoined(b.code);
    EmitShape(p, s.catchBody, flow, cur, b.gen);
    EmitKeeps(p, s.tryBody, inside, inner, g0, cur);
    EmitSealed(p, s.tryBody, inside, inner, g0, {g.next});
    NoTopLabels(b.code, {g.next});
    hide Emit, EmitTryBody;
    TailLabels(p, s.catchBody, flow, cur, g.next, h);
    var tail := TryTail(cur, g.next, h);
    forall l ensures FindLabel(b.code + tail, l) == if l == g.next then |b.code| else |b.code + tail| {
      FindLabelConcat(b.code, tail, l);
    }
  }

  lemma TailLabels(p: Program, s: Stmt, flow: Flow, flag: Flag, k: Label, code: seq<CStmt>)
    requires Shaped(p, s, flow, code) && code != []
    ensures forall l :: FindLabel(TryTail(flag, k, code), l) == if l == k then 0 else |TryTail(flag, k, code)|
  {
    var items := IfCode(OnFlag(flag), code, None);
    PlainList(items);
    assert TryTail(flag, k, code)[1..] == items;
  }

  lemma FindLabelConcat(x: seq<CStmt>, y: seq<CStmt>, l: Label)
    requires FindLabel(x, l) == |x|
    ensures FindLabel(x + y, l) == |x| + FindLabel(y, l)
  {
    if x == [] {
      assert x + y == y;
    } else {
      assert (x + y)[1..] == x[1..] + y;
      FindLabelConcat(x[1..], y, l);
    }
  }

  /** What the parts of a try need, they get. */
  lemma TryParts(p: Program, s: Stmt, flow: Flow, cur: Table, g: Gen, f: Flags, clean: bool)
    requires s.Try? && Tidy(p, s) && Apart(s, cur) && Ready(p, s, flow, cur, g, f, clean)
    ensures var inner, inside := TryBodyTable(s, cur), Flow(cur, Some(cur));
            var g0, b := Gen(g.aliases[cur := g.next], g.next + 1), EmitTryBody(p, s, cur, g);
            var f1, again := f[cur := false], clean && flow.exec != cur;
            && TidyItem(p, s.tryBody) && Apart(s.tryBody, inner) && Ready(p, s.tryBody, inside, inner, g0, f1, true)
            && TidyItem(p, s.catchBody) && Apart(s.catchBody, cur)
            && (FormOf(p, s.catchBody).Tested? && flow.exec != cur ==> flow.exec in f)
            && (flow.throwing.Some? ==>
                  && Lookup(f, flow.exec) == Some(false)
                  && flow.exec != cur && Alias(g, flow.exec) != g.next
                  && Alias(b.gen, flow.exec) == Alias(g, flow.exec))
            && (clean ==> !Raised(flow, f))
            && (forall f2 :: Kept(inside, f1, f2) ==> Ready(p, s.catchBody, flow, cur, b.gen, f2, again))
  {
    var inner, inside := TryBodyTable(s, cur), Flow(cur, Some(cur));
    var g0, b := Gen(g.aliases[cur := g.next], g.next + 1), EmitTryBody(p, s, cur, g);
    TidyIsItem(p, s.tryBody);
    TidyIsItem(p, s.catchBody);
    EmitKeeps(p, s.tryBody, inside, inner, g0, flow.exec);
    if FormOf(p, s.catchBody).Tested? {
      TestedNeeds(p, s.catchBody, cur, flow.exec);
    }
    hide Emit, Tidy, FormOf;
    var f1, again := f[cur := false], clean && flow.exec != cur;
    forall f2 | Kept(inside, f1, f2) ensures Ready(p, s.catchBody, flow, cur, b.gen, f2, again) {
      assert flow.exec != cur ==> Lookup(f2, flow.exec) == Lookup(f[cur := false], flow.exec);
    }
  }

  lemma ExecOfTry(p: Program, s: Stmt, st: Store, fuel: nat)
    requires s.Try?
    ensures Exec(p, s, st, fuel) ==
            match Exec(p, s.tryBody, st, fuel)
            case None => None
            case Some(r) =>
              if r.outcome != Thrown then Some(r)
              else if fuel == 0 then None else Exec(p, s.catchBody, r.store, fuel - 1)
  {
  }

  lemma CExecOfScope(cp: CProgram, x: Flag, items: seq<CStmt>, st: Store, f: Flags, fuel: nat)
    ensures CExecSeq(cp, [CBlock(Some(x), items)], st, f, fuel) ==
            LeaveScope(CExecBlock(cp, items, 0, st, f[x := false], fuel), x, Lookup(f, x))
  {
    SeqOne(cp, CBlock(Some(x), items), st, f, fuel);
  }

  lemma TailRun(p: Program, cp: CProgram, s: Stmt, flow: Flow, x: Flag, l: Label, code: seq<CStmt>,
                st: Store, f: Flags, fuel: nat)
    requires x in f && Shaped(p, s, flow, code) && code != []
    requires FormOf(p, s).Tested? && !f[x] ==> flow.exec in f && !Raised(flow, f)
    ensures CExecSeq(cp, TryTail(x, l, code), st, f, fuel) ==
            if f[x] then CExecSeq(cp, code, st, f, fuel) else Some(CRun(CNormal, st, f))
  {
    hide FormOf, Closed;
    var tail := TryTail(x, l, code);
    assert tail[1..] == [tail[1]] + code[1..];
    assert (([tail[1]] + code[1..])[1..]) == code[1..];
    assert tail == [CLabel(l), tail[1]] + code[1..];
    assert CExecSeq(cp, tail, st, f, fuel) == CExecSeq(cp, tail[1..], st, f, fuel);
    if f[x] {
      assert CExec(cp, tail[1], st, f, fuel) == CExec(cp, code[0], st, f, fuel);
    } else {
      assert CExec(cp, tail[1], st, f, fuel) == Some(CRun(CNormal, st, f));
      QuietTest(p, cp, s, flow, code, st, f, fuel);
    }
  }

  /** The block of a try, entered at its start. */
  lemma TryBlock(cp: CProgram, body: seq<CStmt>, tail: seq<CStmt>, l: Label, st: Store, f: Flags, fuel: nat)
    requires forall k :: FindLabel(body + tail, k) == if k == l then |body| else |body + tail|
    requires tail != []
    ensures CExecBlock(cp, body + tail, 0, st, f, fuel) ==
            match CExecSeq(cp, body, st, f, fuel)
            case None => None
            case Some(r) =>
              if r.outcome == CJump(l) then
                if fuel == 0 then None else CExecBlock(cp, body + tail, |body|, r.store, r.flags, fuel - 1)
              else if r.outcome != CNormal then Some(r)
              else
                match CExecSeq(cp, tail, r.store, r.flags, fuel)
                case None => None
                case Some(t) =>
                  if t.outcome == CJump(l) then
                    if fuel == 0 then None else CExecBlock(cp, body + tail, |body|, t.store, t.flags, fuel - 1)
                  else Some(t)
  {
    assert (body + tail)[0..] == body + tail;
    SeqThen(cp, body, tail, st, f, fuel);
  }

  /** The same block, re-entered at its label. */
  lemma TryHandler(cp: CProgram, body: seq<CStmt>, tail: seq<CStmt>, l: Label, st: Store, f: Flags, fuel: nat)
    requires forall k :: FindLabel(body + tail, k) == if k == l then |body| else |body + tail|
    ensures var c := CExecSeq(cp, tail, st, f, fuel);
            c.None? || c.value.outcome != CJump(l) ==> CExecBlock(cp, body + tail, |body|, st, f, fuel) == c
  {
    assert (body + tail)[|body|..] == tail;
  }

  /** What the source does once the body has ended in r, where the handler ends in h. */
  function TryEnds(r: Option<Run>, h: Option<Run>, fuel: nat): Option<Run> {
    if r.None? || r.value.outcome != Thrown then r else if fuel == 0 then None else h
  }

  /** A try does what its parts do, each given the flags that it is entered with. */
  lemma TryRun(p: Program, cp: CProgram, s: Stmt, flow: Flow, cur: Table, g: Gen,
               st: Store, f: Flags, clean: bool, fuel: nat, reset: bool, r: Option<Run>, handled: Option<Run>)
    requires s.Try? && Tidy(p, s) && Apart(s, cur) && Ready(p, s, flow, cur, g, f, clean)
    requires FormOf(p, s.catchBody).Tested? ==> clean || flow.exec == cur
    requires var b := EmitTryBody(p, s, cur, g);
             var c, h := CExecSeq(cp, b.code, st, f[cur := false], fuel), Emit(p, s.catchBody, flow, cur, b.gen).code;
             && Matches(Flow(cur, Some(cur)), g.next, f[cur := false], true, true, r, c)
             && (r.Some? && r.value.outcome == Thrown && fuel > 0 ==>
                   Matches(flow, Alias(g, flow.exec), c.value.flags, clean && flow.exec != cur, reset, handled,
                           CExecSeq(cp, h, c.value.store, c.value.flags, fuel - 1)))
    ensures Matches(flow, Alias(g, flow.exec), f, clean, clean, TryEnds(r, handled, fuel),
                    CExecSeq(cp, Emit(p, s, flow, cur, g).code, st, f, fuel))
  {
    hide Exec, CExec, Emit, EmitTryBody, Tidy, TidyItem, Needs, Clobbers, Apart, Ready, FindLabel, CExecSeq, CExecBlock,
      Shaped, TryTail;
    TryShape(p, s, flow, cur, g, f, clean);
    TryParts(p, s, flow, cur, g, f, clean);
    var b := EmitTryBody(p, s, cur, g);
    var h := Emit(p, s.catchBody, flow, cur, b.gen).code;
    var tail, f1 := TryTail(cur, g.next, h), f[cur := false];
    CExecOfScope(cp, cur, b.code + tail, st, f, fuel);
    TryBlock(cp, b.code, tail, g.next, st, f1, fuel);
    var c := CExecSeq(cp, b.code, st, f1, fuel);
    if r.None? {
      return;
    }
    var st2, f2 := r.value.store, c.value.flags;
    assert flow.exec != cur ==> Lookup(f2, flow.exec) == Lookup(f, flow.exec);
    TailRun(p, cp, s.catchBody, flow, cur, g.next, h, st2, f2, fuel);
    if r.value.outcome != Thrown {
      TryLeaves(flow, Alias(g, flow.exec), cur, g.next, f, clean, true, r.value, c.value);
      return;
    }
    if fuel == 0 {
      return;
    }
    TailRun(p, cp, s.catchBody, flow, cur, g.next, h, st2, f2, fuel - 1);
    TryHandler(cp, b.code, tail, g.next, st2, f2, fuel - 1);
    HandlerLeaves(flow, Alias(g, flow.exec), cur, f, f2, clean, reset, handled, CExecSeq(cp, h, st2, f2, fuel - 1));
  }

  lemma {:induction false} SimTry(p: Program, cp: CProgram, s: Stmt, flow: Flow, cur: Table, g: Gen,
                                  st: Store, f: Flags, clean: bool, fuel: nat)
    requires s.Try? && Compiled(p, cp) && Tidy(p, s) && Apart(s, cur) && Ready(p, s, flow, cur, g, f, clean)
    requires Steady(p, s, flow.exec, cur, clean)
    ensures Matches(flow, Alias(g, flow.exec), f, clean, clean || Resets(p, s), Exec(p, s, st, fuel),
                    CExecSeq(cp, Emit(p, s, flow, cur, g).code, st, f, fuel))
    decreases fuel, s, 1
  {
    hide Exec, CExec, Emit, EmitTryBody, Tidy, TidyItem, Needs, Clobbers, Apart, Ready, FindLabel, CExecSeq, CExecBlock;
    TryParts(p, s, flow, cur, g, f, clean);
    ExecOfTry(p, s, st, fuel);
    var inner, inside := TryBodyTable(s, cur), Flow(cur, Some(cur));
    var g0, b := Gen(g.aliases[cur := g.next], g.next + 1), EmitTryBody(p, s, cur, g);
    var h, f1 := Emit(p, s.catchBody, flow, cur, b.gen).code, f[cur := false];
    EmitTryBodyIs(p, s, cur, g);
    Sim(p, cp, s.tryBody, inside, inner, g0, st, f1, true, fuel);
    var r, c := Exec(p, s.tryBody, st, fuel), CExecSeq(cp, b.code, st, f1, fuel);
    if r.Some? && r.value.outcome == Thrown && fuel > 0 {
      Sim(p, cp, s.catchBody, flow, cur, b.gen, r.value.store, c.value.flags, clean && flow.exec != cur, fuel - 1);
      TryRun(p, cp, s, flow, cur, g, st, f, clean, fuel, (clean && flow.exec != cur) || Resets(p, s.catchBody), r,
             Exec(p, s.catchBody, r.value.store, fuel - 1));
    } else {
      TryRun(p, cp, s, flow, cur, g, st, f, clean, fuel, false, r, None);
    }
  }

  lemma EmitTryBodyIs(p: Program, s: Stmt, cur: Table, g: Gen)
    requires s.Try?
    ensures EmitTryBody(p, s, cur, g) ==
            Emit(p, s.tryBody, Flow(cur, Some(cur)), TryBodyTable(s, cur), Gen(g.aliases[cur := g.next], g.next + 1))
    ensures Alias(Gen(g.aliases[cur := g.next], g.next + 1), cur) == g.next
  {
  }

  /** Control leaves a try whose body threw nothing. */
  lemma TryLeaves(flow: Flow, l: Label, cur: Table, k: Label, f: Flags, clean: bool, reset: bool, r: Run, c: CRun)
    requires r.outcome != Thrown && Matches(Flow(cur, Some(cur)), k, f[cur := false], true, reset, Some(r), Some(c))
    requires flow.throwing.Some? ==> Lookup(f, flow.exec) == Some(false)
    requires clean ==> !Raised(flow, f)
    ensures Matches(flow, l, f, clean, clean, Some(r), LeaveScope(Some(c), cur, Lookup(f, cur)))
  {
    var f3 := LeaveScope(Some(c), cur, Lookup(f, cur)).value.flags;
    forall x ensures Lookup(f3, x) == Lookup(f, x) {
      if x != cur {
        assert Lookup(c.flags, x) == Lookup(f[cur := false], x);
      }
    }
    assert Lookup(f3, flow.exec) == Lookup(f, flow.exec);
  }

  /** Control leaves a handler. */
  lemma HandlerLeaves(flow: Flow, l: Label, cur: Table, f: Flags, f2: Flags, clean: bool, reset: bool,
                      r: Option<Run>, c: Option<CRun>)
    requires Matches(flow, l, f2, clean && flow.exec != cur, reset, r, c) && Kept(Flow(cur, Some(cur)), f[cur := false], f2)
    requires flow.throwing.Some? ==> flow.exec != cur
    requires clean ==> !Raised(flow, f)
    ensures Matches(flow, l, f, clean, clean, r, LeaveScope(c, cur, Lookup(f, cur)))
  {
    if r.Some? {
      var f3 := LeaveScope(c, cur, Lookup(f, cur)).value.flags;
      assert Lookup(f3, cur) == Lookup(f, cur);
      forall x | x != flow.exec ensures Lookup(f3, x) == Lookup(f, x) {
        if x != cur {
          assert Lookup(c.value.flags, x) == Lookup(f2, x) == Lookup(f[cur := false], x);
        }
      }
      if flow.exec != cur {
        assert Lookup(f2, flow.exec) == Lookup(f[cur := false], flow.exec);
      }
    }
  }

  // ----- statements and functions -----

  lemma {:induction false} Sim(p: Program, cp: CProgram, s: Stmt, flow: Flow, cur: Table, g: Gen,
                               st: Store, f: Flags, clean: bool, fuel: nat)
    requires Compiled(p, cp) && TidyItem(p, s) && Apart(s, cur) && Ready(p, s, flow, cur, g, f, clean)
    requires Steady(p, s, flow.exec, cur, clean)
    ensures Matches(flow, Alias(g, flow.exec), f, clean, clean || Resets(p, s), Exec(p, s, st, fuel),
                    CExecSeq(cp, Emit(p, s, flow, cur, g).code, st, f, fuel))
    decreases fuel, s, 2
  {
    hide Exec, CExec, CExecSeq, Emit, Tidy, Matches, Apart, Ready, Steady, Resets;
    match s
    case Block(_) => SimBlock(p, cp, s, flow, cur, g, st, f, clean, fuel);
    case If(_, _, _, _) => SimIf(p, cp, s, flow, cur, g, st, f, clean, fuel);
    case While(_, _, _) => SimLoops(p, cp, s, flow, cur, g, st, f, clean, fuel);
    case For(_, _, _, _, _) => SimLoops(p, cp, s, flow, cur, g, st, f, clean, fuel);
    case Switch(_, _) => SimSwitch(p, cp, s, flow, cur, g, st, f, clean, fuel);
    case Case(_, _) => SimLabel(p, cp, s, flow, cur, g, st, f, clean, fuel);
    case Default(_) => SimLabel(p, cp, s, flow, cur, g, st, f, clean, fuel);
    case Labeled(_) => SimLabel(p, cp, s, flow, cur, g, st, f, clean, fuel);
    case Inline(_, _, _, _) => SimInline(p, cp, s, flow, cur, g, st, f, clean, fuel);
    case Try(_, _, _) => SimTry(p, cp, s, flow, cur, g, st, f, clean, fuel);
    case Call(_, _, _) => EmitLeaf(p, s, flow, cur, g); SimCall(p, cp, s, flow, cur, g, st, f, clean, fuel);
    case Throw => EmitLeaf(p, s, flow, cur, g); SimThrow(p, cp, s, flow, cur, g, st, f, clean, fuel);
    case _ => SimSimple(p, cp, s, flow, cur, g, st, f, clean, fuel);
  }

  lemma EmitLeaf(p: Program, s: Stmt, flow: Flow, cur: Table, g: Gen)
    requires s.Do? || s.Call? || s.Throw? || s.Return? || s.Break? || s.Continue?
    ensures Emit(p, s, flow, cur, g).code == Assemble(p, s, flow, g, [])
  {
  }

  lemma SimSimple(p: Program, cp: CProgram, s: Stmt, flow: Flow, cur: Table, g: Gen,
                  st: Store, f: Flags, clean: bool, fuel: nat)
    requires (s.Do? || s.Return? || s.Break? || s.Continue?) && Ready(p, s, flow, cur, g, f, clean)
    ensures Matches(flow, Alias(g, flow.exec), f, clean, clean || Resets(p, s), Exec(p, s, st, fuel),
                    CExecSeq(cp, Emit(p, s, flow, cur, g).code, st, f, fuel))
  {
    hide Emit, CExecSeq, Clobbers, Alias;
    EmitLeaf(p, s, flow, cur, g);
    SeqOne(cp, Emit(p, s, flow, cur, g).code[0], st, f, fuel);
  }

  lemma PlainList(items: seq<CStmt>)
    requires forall c <- items :: !c.CLabel?
    ensures forall l :: FindLabel(items, l) == |items|
  {
  }

  lemma Braces(cp: CProgram, items: seq<CStmt>, st: Store, f: Flags, fuel: nat)
    requires forall c <- items :: !c.CLabel?
    ensures CExecSeq(cp, [CBlock(None, items)], st, f, fuel) == CExecSeq(cp, items, st, f, fuel)
  {
    PlainList(items);
    BlockWithoutLabels(cp, items, 0, st, f, fuel);
    SeqOne(cp, CBlock(None, items), st, f, fuel);
  }

  /** What a function returns when its body, in the braces around it, ends in c. */
  function FunctionResult(c: Option<CRun>): Option<(bool, Store)> {
    match c
    case None => None
    case Some(r) =>
      match r.outcome
      case CNormal => Some((false, r.store))
      case CReturned(b) => Some((b, r.store))
      case _ => None
  }

  lemma FunctionFrame(p: Program, cp: CProgram, m: Method, stale: Flow, g: Gen, st: Store, fuel: nat)
    requires Tidy(p, m.body) && Apart(m.body, m.table) && !IsEmpty(m.body) && stale.throwing.None?
    ensures var flow := if HasExec(m) then Flow(m.table, None) else stale;
            var f := if HasExec(m) then map[m.table := false] else map[];
            Result(CExecBlock(cp, EmitMethod(p, m, stale, g).code, 0, st, map[], fuel)) ==
            FunctionResult(CExecSeq(cp, Emit(p, m.body, flow, m.table, g).code, st, f, fuel))
  {
    hide CExec, CExecSeq, CExecBlock, Emit, Tidy, Apart, Clobbers, HasReturn, HasExec;
    var flow := if HasExec(m) then Flow(m.table, None) else stale;
    var f: Flags := if HasExec(m) then map[m.table := false] else map[];
    var code := Emit(p, m.body, flow, m.table, g).code;
    EmitSealed(p, m.body, flow, m.table, g, {});
    var entry := if HasReturn(m) then [CBlock(None, code + [CDo(IDENTITY)])] else code;
    var logic := if HasExec(m) then [CBlock(Some(m.table), entry)] else entry;
    var inner := [CBlock(None, logic), CReturn(false)];
    EntryResult(cp, code, entry, st, f, fuel);
    PlainList(entry);
    if HasExec(m) {
      assert f == map[][m.table := false];
      CExecOfScope(cp, m.table, entry, st, map[], fuel);
      BlockWithoutLabels(cp, entry, 0, st, f, fuel);
    }
    Braces(cp, logic, st, map[], fuel);
    ThenReturn(cp, CBlock(None, logic), st, fuel);
    Braces(cp, inner, st, map[], fuel);
    PlainList([CBlock(None, inner)]);
    BlockWithoutLabels(cp, [CBlock(None, inner)], 0, st, map[], fuel);
  }

  /** The exit label after the body is never jumped to and changes nothing. */
  lemma EntryResult(cp: CProgram, code: seq<CStmt>, entry: seq<CStmt>, st: Store, f: Flags, fuel: nat)
    requires forall c <- code :: !c.CLabel?
    requires entry == code || entry == [CBlock(None, code + [CDo(IDENTITY)])]
    ensures forall c <- entry :: !c.CLabel?
    ensures CExecSeq(cp, entry, st, f, fuel) == CExecSeq(cp, code, st, f, fuel)
  {
    if entry != code {
      var items := code + [CDo(IDENTITY)];
      Braces(cp, items, st, f, fuel);
      SeqThen(cp, code, [CDo(IDENTITY)], st, f, fuel);
      var c := CExecSeq(cp, code, st, f, fuel);
      if c.Some? {
        SeqOne(cp, CDo(IDENTITY), c.value.store, c.value.flags, fuel);
      }
    }
  }

  lemma ThenReturn(cp: CProgram, c: CStmt, st: Store, fuel: nat)
    ensures Result(CExecSeq(cp, [c, CReturn(false)], st, map[], fuel)) ==
            FunctionResult(CExecSeq(cp, [c], st, map[], fuel))
  {
    assert [c] + [CReturn(false)] == [c, CReturn(false)];
    SeqThen(cp, [c], [CReturn(false)], st, map[], fuel);
    var r := CExecSeq(cp, [c], st, map[], fuel);
    if r.Some? {
      SeqOne(cp, CReturn(false), r.value.store, r.value.flags, fuel);
    }
  }

  lemma {:induction false} SimBody(p: Program, cp: CProgram, m: Name, st: Store, fuel: nat)
    requires Compiled(p, cp) && m in p && m in cp && !IsEmpty(p[m].body)
    ensures Result(CExecBlock(cp, cp[m], 0, st, map[], fuel)) == Finish(Exec(p, p[m].body, st, fuel))
    decreases fuel
  {
    hide CExecSeq, CExecBlock, Exec, Emit, EmitMethod, Tidy, TidyItem, Apart, Needs, HasExec, Steady, Resets;
    assert FunctionFor(p, cp, m);
    var meth := p[m];
    var stale: Flow, g: Gen :| stale.throwing.None? && cp[m] == EmitMethod(p, meth, stale, g).code;
    var flow := if HasExec(meth) then Flow(meth.table, None) else stale;
    var f: Flags := if HasExec(meth) then map[meth.table := false] else map[];
    FunctionFrame(p, cp, meth, stale, g, st, fuel);
    TidyIsItem(p, meth.body);
    NeedsIsMayCall(p, meth.body, meth.table, flow.exec);
    if !HasExec(meth) {
      QuietIsSteady(p, meth.body, meth.table, flow.exec, meth.table, true, true);
    }
    Sim(p, cp, meth.body, flow, meth.table, g, st, f, true, fuel);
  }

  /** For every program of good methods, every way their functions were generated, every method,
      state and amount of fuel: the function runs as long as the method does, leaves the same
      state, and returns 1 if and only if an exception leaves the method. */
  lemma LoweringPreservesMeaning(p: Program, cp: CProgram, m: Name, st: Store, fuel: nat)
    requires Compiled(p, cp) && m in p && fuel > 0
    ensures CExecMethod(cp, m, st, fuel) == ExecMethod(p, m, st, fuel)
  {
    assert FunctionFor(p, cp, m);
    if IsEmpty(p[m].body) {
      var stale: Flow, g: Gen :| stale.throwing.None? && cp[m] == EmitMethod(p, p[m], stale, g).code;
      BlockWithoutLabels(cp, [CReturn(false)], 0, st, map[], fuel - 1);
      SeqOne(cp, CReturn(false), st, map[], fuel - 1);
    } else {
      SimBody(p, cp, m, st, fuel - 1);
    }
  }
}
