/** Bodies outside of what the lowering expects, and what goes wrong with each. */
module Limits {
  import opened Common
  import opened Dml
  import opened CTarget
  import opened FlowControl
  import opened Emission
  import opened Labels
  import opened Scopes
  import opened TidyBodies
  import opened StaleFlags
  import opened Simulation
  import opened Misplaced

  /** Conditions that can be read off a method body make it one that is translated faithfully. */
  lemma GoodFromSyntax(p: Program, m: Method)
    requires Tidy(p, m.body) && Compound(m.body, m.table, {}) && Steady(p, m.body, m.table, m.table, true)
    requires HasExec(m) || !Hidden(m.body, CallKind)
    ensures GoodMethod(p, m)
  {
    HasExecIsExact(m);
    SearchIsExact(m.body, CallKind);
    if MayCall(p, m.body) {
      MayCallIsSyntax(p, m.body);
    }
    CompoundIsApart(m.body, m.table, {});
  }

  /** A throw needs no flag of its own: a method is translated faithfully although the search passes
      over the exception that leaves it. */
  lemma HiddenThrowIsGood(p: Program, selector: Store -> int, t: Table)
    ensures var m := Method(t, Block([Switch(selector, [Default(Throw)])]));
            !HasExec(m) && MayEnd(m.body, Thrown) && GoodMethod(p, m)
  {
    var d := Default(Throw);
    var s := Switch(selector, [d]);
    var m := Method(t, Block([s]));
    HiddenThrow(p, d, selector, t);
    assert Parts(Throw, t) == [] && Parts(d, t) == [Part(Throw, t)];
    assert Parts(s, t) == [Part(d, t)] && [Part(d, t)][1..] == [];
    PartApart(Part(Throw, t), d);
    PartApart(Part(d, t), s);
    SingleApart(s, t);
    assert TidyItem(p, d) by { assert Tidy(p, Throw); }
    assert Steady(p, d, t, t, true);
    OneSteady(p, Part(d, t), s, t);
    SingleSteady(p, s, t, t);
    SingleTidy(p, s);
  }

  lemma OneSteady(p: Program, x: Part, whole: Stmt, exec: Table)
    requires x.stmt < whole && Steady(p, x.stmt, exec, x.table, true)
    ensures ListSteady(p, [x], whole, exec, true) && ArmsSteady(p, [x], whole, exec, true)
  {
    hide Steady;
    assert [x][1..] == [] && ListSteady(p, [], whole, exec, true || Resets(p, x.stmt));
  }

  lemma HiddenThrow(p: Program, d: Stmt, selector: Store -> int, t: Table)
    requires d == Default(Throw)
    ensures var m := Method(t, Block([Switch(selector, [d])]));
            !HasExec(m) && MayEnd(m.body, Thrown) && !MayCall(p, m.body)
  {
    var s := Switch(selector, [d]);
    assert [d][1..] == [] && [s][1..] == [];
    forall k: Kind ensures !BlockHas(Block([s]), k) && (k.ThrowKind? ==> May(Block([s]), k)) {
      assert !BlockHas(d, k) && !ItemHas(d, k) && !SeqHas([d], k) && !ItemHas(s, k);
      assert k.ThrowKind? ==> May(Throw, k) && May(d, k) && SomeMay([d], k) && May(s, k);
    }
    assert !SomeMayCall(p, [d]) && !MayCall(p, s) && !SomeMayCall(p, [s]);
  }

  /** Calls without braces under an `if`, as `else` and as handler are translated faithfully. */
  lemma UnbracedCallsAreGood(p: Program, c: Store -> bool, call: Stmt, a: Store -> Store, t: Table, u: Table)
    requires call.Call? && call.callee in p && !EmptyMethod(p, call.callee)
    ensures GoodMethod(p, Method(t, Block([If(Cond(c, Unknown), u, call, NoElse)])))
    ensures GoodMethod(p, Method(t, Block([If(Cond(c, Unknown), u, Do(a), ElseBlock(u, call))])))
    ensures u != t ==> GoodMethod(p, Method(t, Block([Try(u, Block([Throw]), call)])))
  {
    UnbracedBranch(p, c, call, NoElse, t, u);
    UnbracedBranch(p, c, Do(a), ElseBlock(u, call), t, u);
    if u != t {
      UnbracedHandler(p, call, t, u);
    }
  }

  lemma UnbracedHandler(p: Program, call: Stmt, t: Table, u: Table)
    requires call.Call? && call.callee in p && !EmptyMethod(p, call.callee) && u != t
    ensures GoodMethod(p, Method(t, Block([Try(u, Block([Throw]), call)])))
  {
    var s, body := Try(u, Block([Throw]), call), Block([Throw]);
    SimpleIsGood(p, call, t, t);
    SimpleIsSteady(p, call, t, t, false);
    assert Parts(Throw, u) == [] && Apart(Throw, u) && !Clobbers(Throw, t, u);
    SingleApart(Throw, u);
    ThrowSteady(p, t, u);
    assert Tidy(p, Throw) && Tidy(p, body) && Tidy(p, s) && ItemHas(s, CallKind);
    hide Tidy, Apart, Steady, ItemHas, Clobbers;
    assert Apart(s, t) && Steady(p, s, t, t, true) by { TryIsSteady(p, s, t); }
    GoodSingle(p, s, t);
  }

  lemma TryIsSteady(p: Program, s: Stmt, t: Table)
    requires s.Try? && s.tryBody.Block?
    requires !Clobbers(s.tryBody, t, s.tryTable) && Apart(s.tryBody, s.tryTable) && Apart(s.catchBody, t)
    requires Steady(p, s.tryBody, t, s.tryTable, true) && Steady(p, s.catchBody, t, t, false)
    ensures Apart(s, t) && Steady(p, s, t, t, true)
  {
  }

  lemma SimpleIsSteady(p: Program, s: Stmt, t: Table, u: Table, clean: bool)
    requires Simple(p, s)
    ensures Steady(p, s, t, u, clean)
  {
    assert Parts(s, u) == [];
  }

  lemma UnbracedBranch(p: Program, c: Store -> bool, thn: Stmt, els: Else, t: Table, u: Table)
    requires (Simple(p, thn) && els.NoElse? && thn.Call?) || (thn.Do? && els.ElseBlock? && els.elseBody.Call?)
    requires els.ElseBlock? ==> els.elseTable == u && Simple(p, els.elseBody)
    ensures GoodMethod(p, Method(t, Block([If(Cond(c, Unknown), u, thn, els)])))
  {
    var s := If(Cond(c, Unknown), u, thn, els);
    var ps := Parts(s, t);
    SimpleIsGood(p, thn, t, u);
    if els.ElseBlock? {
      SimpleIsGood(p, els.elseBody, t, u);
      assert ps == [Part(thn, u), Part(els.elseBody, u)] && ps[1..] == [Part(els.elseBody, u)] && ps[1..][1..] == [];
      assert BlockHas(els.elseBody, CallKind) && ElseHas(els, CallKind);
      assert FormOf(p, els.elseBody).Tested? && FormOf(p, thn).Single? && Closed(thn);
    } else {
      assert ps == [Part(thn, u)] && ps[1..] == [];
      assert BlockHas(thn, CallKind) && FormOf(p, thn).Tested?;
    }
    FirstApart(ps, s);
    assert TidyElse(p, els) && FitsIf(p, thn, els);
    assert BlockHas(s, CallKind);
    hide Apart, Steady, FormOf, ElseForm, BlockHas;
    assert PartsSteady(p, ps[1..], s, t, true) && PartsSteady(p, ps, s, t, true);
    assert TestSteady(p, s, true) && Tidy(p, s) && ItemHas(s, CallKind);
    assert Apart(s, t) && Steady(p, s, t, t, true) by { IfIsSteady(p, s, t); }
    GoodSingle(p, s, t);
  }

  lemma FirstApart(ps: seq<Part>, whole: Stmt)
    requires ps != [] && forall x <- ps :: x.stmt < whole
    ensures AllApart(ps, whole) <==> Apart(ps[0].stmt, ps[0].table) && AllApart(ps[1..], whole)
  {
  }

  predicate Simple(p: Program, s: Stmt) {
    s.Do? || (s.Call? && s.callee in p && !EmptyMethod(p, s.callee))
  }

  lemma SimpleIsGood(p: Program, s: Stmt, t: Table, u: Table)
    requires Simple(p, s)
    ensures Tidy(p, s) && Apart(s, u) && Steady(p, s, t, u, true)
  {
    assert Parts(s, u) == [];
  }

  lemma IfIsSteady(p: Program, s: Stmt, t: Table)
    requires s.If? && AllApart(Parts(s, t), s) && PartsSteady(p, Parts(s, t), s, t, true) && TestSteady(p, s, true)
    ensures Apart(s, t) && Steady(p, s, t, t, true)
  {
  }

  lemma GoodSingle(p: Program, s: Stmt, t: Table)
    requires Tidy(p, s) && Apart(s, t) && Steady(p, s, t, t, true) && ItemHas(s, CallKind)
    ensures GoodMethod(p, Method(t, Block([s])))
  {
    hide Tidy, Apart, Steady, ItemHas;
    SeqHasSingle(s, CallKind);
    SingleApart(s, t);
    var ps := Parts(Block([s]), t);
    assert ps == [Part(s, t)] && ps[1..] == [];
    assert Steady(p, Block([s]), t, t, true) by { SingleSteady(p, s, t, t); }
    assert Tidy(p, Block([s])) by { SingleTidy(p, s); }
  }

  lemma SingleTidy(p: Program, s: Stmt)
    requires Tidy(p, s)
    ensures Tidy(p, Block([s]))
  {
  }

  lemma SingleSteady(p: Program, s: Stmt, exec: Table, cur: Table)
    requires Steady(p, s, exec, cur, true)
    ensures Steady(p, Block([s]), exec, cur, true)
  {
    var ps := Parts(Block([s]), cur);
    assert ps == [Part(s, cur)] && ps[1..] == [] && ps[0].stmt == s;
    assert ListSteady(p, ps[1..], Block([s]), exec, true);
  }

  /** A try whose handler is an unbraced call under a condition. */
  function Guarded(body: Stmt, c: Store -> bool, call: Stmt, inner: Table, t: Table): Stmt {
    Try(inner, body, Block([If(Cond(c, Unknown), t, call, NoElse)]))
  }

  /** A try body as the main theorem wants it. */
  ghost predicate GoodTryBody(p: Program, s: Stmt, cur: Table)
    requires s.Try?
  {
    var inner := TryBodyTable(s, cur);
    && Tidy(p, s.tryBody) && Apart(s.tryBody, inner) && !Clobbers(s.tryBody, cur, inner)
    && Steady(p, s.tryBody, cur, inner, true)
  }

  /** The method flag has the symbol table of its body, and so has the flag of a try that stands there:
      in the handler the exception that is being handled is still in the flag, and the test behind a
      call that is not made takes it for one of the call. The function is wrong on exactly the runs on
      which the handler is reached and makes no call. */
  lemma StaleFlag(p: Program, cp: CProgram, body: Stmt, c: Store -> bool, call: Stmt, inner: Table, t: Table,
                  cur: Table, stale: Flow, g: Gen, st: Store, fuel: nat)
    requires Compiled(p, cp) && call.Call? && call.callee in p && !EmptyMethod(p, call.callee)
    requires GoodTryBody(p, Guarded(body, c, call, inner, t), cur) && stale.throwing.None?
    ensures var m := Method(cur, Block([Guarded(body, c, call, inner, t)]));
            var text := Result(CExecBlock(cp, EmitMethod(p, m, stale, g).code, 0, st, map[], fuel));
            var r := Exec(p, body, st, fuel);
            var lost := Ended(r, Thrown) && fuel > 0 && !c(r.value.store);
            && (text == Finish(Exec(p, m.body, st, fuel)) <==> !lost)
            && (lost ==> text == Some((true, r.value.store)) && Finish(Exec(p, m.body, st, fuel)) == Some((false, r.value.store)))
  {
    hide Exec, ExecSeq, CExec, CExecSeq, CExecBlock, Emit, EmitMethod, Tidy, Apart, Compiled, HasExec, GoodTryBody, Matches,
      GuardedEnds, Finish, FunctionResult, Result, Alias;
    var s, flow, f := Guarded(body, c, call, inner, t), Flow(cur, None), map[cur := false];
    var m := Method(cur, Block([s]));
    GuardedBody(p, body, c, call, inner, t, cur);
    FunctionFrame(p, cp, m, stale, g, st, fuel);
    var r := GuardedRun(p, cp, body, c, call, inner, t, cur, g, st, fuel);
    SingleBlockCode(p, m.body, s, flow, cur, g);
    UnlabelledCode(p, s, flow, cur, g);
    Braces(cp, Emit(p, s, flow, cur, g).code, st, f, fuel);
    MatchedResult(flow, Alias(g, cur), f, r, CExecSeq(cp, Emit(p, s, flow, cur, g).code, st, f, fuel));
    GuardedSource(p, body, c, call, inner, t, st, fuel, r);
    ExecSingle(p, s, st, fuel);
  }

  lemma UnlabelledCode(p: Program, s: Stmt, flow: Flow, cur: Table, g: Gen)
    requires s.Try?
    ensures forall x <- Emit(p, s, flow, cur, g).code :: !x.CLabel?
  {
  }

  /** Outside of every try, control and flag say what a function returns. */
  lemma MatchedResult(flow: Flow, l: Label, f: Flags, r: Option<Run>, c: Option<CRun>)
    requires flow.throwing.None? && Matches(flow, l, f, true, true, r, c)
    ensures FunctionResult(c) == Finish(r)
  {
  }

  lemma GuardedBody(p: Program, body: Stmt, c: Store -> bool, call: Stmt, inner: Table, t: Table, cur: Table)
    requires call.Call? && call.callee in p && !EmptyMethod(p, call.callee)
    requires GoodTryBody(p, Guarded(body, c, call, inner, t), cur)
    ensures var s := Guarded(body, c, call, inner, t);
            var m := Method(cur, Block([s]));
            && Tidy(p, s) && Tidy(p, m.body) && Apart(s, cur) && Apart(m.body, cur) && !IsEmpty(m.body) && HasExec(m)
  {
    var s, test := Guarded(body, c, call, inner, t), If(Cond(c, Unknown), t, call, NoElse);
    assert Tidy(p, call) && Tidy(p, test);
    GuardedHasExec(body, c, call, inner, t, cur);
    hide Tidy, BlockHas, SeqHas, HasExec;
    assert Parts(test, cur) == [Part(call, t)];
    assert Parts(call, t) == [] && Apart(call, t);
    PartApart(Part(call, t), test);
    SingleApart(test, cur);
    SingleApart(s, cur);
    GuardedTidy(p, body, c, call, inner, t);
  }

  lemma GuardedTidy(p: Program, body: Stmt, c: Store -> bool, call: Stmt, inner: Table, t: Table)
    requires call.Call? && call.callee in p && !EmptyMethod(p, call.callee) && Tidy(p, body)
    ensures var s := Guarded(body, c, call, inner, t);
            Tidy(p, s) && Tidy(p, Block([s])) && FormOf(p, s.catchBody).Single?
  {
    var test := If(Cond(c, Unknown), t, call, NoElse);
    assert Tidy(p, call) && Tidy(p, test);
  }

  lemma GuardedHasExec(body: Stmt, c: Store -> bool, call: Stmt, inner: Table, t: Table, cur: Table)
    requires call.Call?
    ensures BlockHas(Block([Guarded(body, c, call, inner, t)]), CallKind)
    ensures HasExec(Method(cur, Block([Guarded(body, c, call, inner, t)])))
  {
    var s, test := Guarded(body, c, call, inner, t), If(Cond(c, Unknown), t, call, NoElse);
    assert BlockHas(call, CallKind);
    SeqHasSingle(test, CallKind);
    assert BlockHas(Block([test]), CallKind);
    SeqHasSingle(s, CallKind);
  }

  /** In the braces of a loop the try stands under the table of the loop, and so has a flag of its own:
      the same try is translated faithfully there. */
  lemma GuardedInLoop(p: Program, loop: Stmt, body: Stmt, c: Store -> bool, call: Stmt, inner: Table, u: Table,
                      t: Table, table: Table)
    requires (loop.While? && loop == While(loop.guard, t, Block([Guarded(body, c, call, inner, u)])))
             || (loop.For? && loop == For(loop.init, loop.test, loop.update, t, Block([Guarded(body, c, call, inner, u)])))
    requires call.Call? && call.callee in p && !EmptyMethod(p, call.callee)
    requires GoodTryBody(p, Guarded(body, c, call, inner, u), t) && t != table
    ensures GoodMethod(p, Method(table, Block([loop])))
  {
    var s := Guarded(body, c, call, inner, u);
    var braced := Block([s]);
    GuardedBody(p, body, c, call, inner, u, t);
    GuardedTidy(p, body, c, call, inner, u);
    GuardedSteady(p, body, c, call, inner, u, t, table);
    GuardedHasExec(body, c, call, inner, u, t);
    LoopIsSteady(p, loop, braced, t, table);
    hide *;
    GoodSingle(p, loop, table);
  }

  lemma GuardedSteady(p: Program, body: Stmt, c: Store -> bool, call: Stmt, inner: Table, u: Table, t: Table, table: Table)
    requires call.Call? && call.callee in p && !EmptyMethod(p, call.callee)
    requires GoodTryBody(p, Guarded(body, c, call, inner, u), t) && t != table
    ensures Steady(p, Block([Guarded(body, c, call, inner, u)]), table, t, true)
  {
    var s, test := Guarded(body, c, call, inner, u), If(Cond(c, Unknown), u, call, NoElse);
    SimpleIsSteady(p, call, table, u, true);
    var ps := Parts(test, t);
    assert ps == [Part(call, u)];
    OnePartSteady(p, ps[0], test, table, true);
    hide Tidy, Apart, Clobbers, FormOf;
    assert TestSteady(p, test, true);
    assert Steady(p, test, table, t, true);
    SingleSteady(p, test, table, t);
    assert Steady(p, s, table, t, true) by {
      assert FormOf(p, s.catchBody).Single? by { GuardedTidy(p, body, c, call, inner, u); }
    }
    SingleSteady(p, s, table, t);
  }

  lemma OnePartSteady(p: Program, x: Part, whole: Stmt, exec: Table, clean: bool)
    requires x.stmt < whole && Steady(p, x.stmt, exec, x.table, clean)
    ensures PartsSteady(p, [x], whole, exec, clean)
  {
    hide Steady;
    assert [x][1..] == [] && PartsSteady(p, [], whole, exec, clean);
  }

  lemma LoopIsSteady(p: Program, loop: Stmt, body: Stmt, t: Table, table: Table)
    requires (loop.While? && loop.whileBody == body && loop.whileTable == t) || (loop.For? && loop.forBody == body && loop.forTable == t)
    requires body.Block? && Tidy(p, body) && Apart(body, t) && Steady(p, body, table, t, true) && BlockHas(body, CallKind)
    ensures Tidy(p, loop) && Apart(loop, table) && Steady(p, loop, table, table, true) && ItemHas(loop, CallKind)
  {
    var ps := Parts(loop, table);
    assert ps == [Part(body, t)];
    PartApart(ps[0], loop);
    assert BlockHas(loop, CallKind) || loop.While?;
    OnePartSteady(p, ps[0], loop, table, true);
    hide Apart, Clobbers, BlockHas;
  }

  lemma PartApart(x: Part, whole: Stmt)
    requires x.stmt < whole
    ensures AllApart([x], whole) == Apart(x.stmt, x.table)
    ensures forall t :: AnyClobbers([x], whole, t) == Clobbers(x.stmt, t, x.table)
  {
    hide Apart, Clobbers;
    assert [x][1..] == [] && AllApart([], whole);
    forall t ensures AnyClobbers([x], whole, t) == Clobbers(x.stmt, t, x.table) {
      assert !AnyClobbers([], whole, t);
    }
  }

  lemma SingleApart(s: Stmt, cur: Table)
    ensures Apart(Block([s]), cur) == Apart(s, cur)
    ensures forall t :: Clobbers(Block([s]), t, cur) == Clobbers(s, t, cur)
  {
    var ps := Parts(Block([s]), cur);
    assert ps == [Part(s, cur)] && ps[0].stmt == s;
    PartApart(ps[0], Block([s]));
  }

  lemma SingleBlockCode(p: Program, body: Stmt, s: Stmt, flow: Flow, cur: Table, g: Gen)
    requires body == Block([s]) && Tidy(p, s)
    ensures Emit(p, body, flow, cur, g).code == [CBlock(None, Emit(p, s, flow, cur, g).code)]
  {
    hide Emit, Tidy, FormOf;
    var x := Part(s, cur);
    assert Parts(body, cur) == [x] && body.stmts[0] == s;
    EmitAssembled(p, body, flow, cur, g);
    EmitOne(p, x, body, flow, g);
    EmitShape(p, s, flow, cur, g);
    NothingJoined(Emit(p, s, flow, cur, g).code);
  }

  lemma GuardedSource(p: Program, body: Stmt, c: Store -> bool, call: Stmt, inner: Table, t: Table,
                      st: Store, fuel: nat, handled: Option<Run>)
    requires call.Call? && handled == GuardedEnds(p, body, c, call, st, fuel)
    ensures var r, source := Exec(p, body, st, fuel), Exec(p, Guarded(body, c, call, inner, t), st, fuel);
            var lost := Ended(r, Thrown) && fuel > 0 && !c(r.value.store);
            && (Finish(handled) == Finish(source) <==> !lost)
            && (lost ==> Finish(handled) == Some((true, r.value.store)) && Finish(source) == Some((false, r.value.store)))
  {
    var s, r := Guarded(body, c, call, inner, t), Exec(p, body, st, fuel);
    var test := s.catchBody.stmts[0];
    hide Exec, ExecSeq;
    ExecOfTry(p, s, st, fuel);
    if Ended(r, Thrown) && fuel > 0 {
      ExecSingle(p, test, r.value.store, fuel - 1);
      ExecOfIf(p, test, r.value.store, fuel - 1);
    }
  }

  /** What the emitted try does: where no call is made the old exception goes on. */
  function GuardedEnds(p: Program, body: Stmt, c: Store -> bool, call: Stmt, st: Store, fuel: nat): Option<Run> {
    var r := Exec(p, body, st, fuel);
    if !Ended(r, Thrown) then r
    else if fuel == 0 then None
    else if c(r.value.store) then Exec(p, call, r.value.store, fuel - 1)
    else r
  }

  lemma {:induction false} GuardedRun(p: Program, cp: CProgram, body: Stmt, c: Store -> bool, call: Stmt,
                                      inner: Table, t: Table, cur: Table, g: Gen, st: Store, fuel: nat)
    returns (ends: Option<Run>)
    requires Compiled(p, cp) && call.Call? && call.callee in p && !EmptyMethod(p, call.callee)
    requires GoodTryBody(p, Guarded(body, c, call, inner, t), cur)
    ensures ends == GuardedEnds(p, body, c, call, st, fuel)
    ensures Matches(Flow(cur, None), Alias(g, cur), map[cur := false], true, true, ends,
                    CExecSeq(cp, Emit(p, Guarded(body, c, call, inner, t), Flow(cur, None), cur, g).code,
                             st, map[cur := false], fuel))
  {
    var s, flow, f := Guarded(body, c, call, inner, t), Flow(cur, None), map[cur := false];
    hide Emit, EmitTryBody, Exec, CExecSeq, Tidy, TidyItem, Apart, Compiled, Clobbers, Steady, Needs, Ready, Resets,
      TryBodyTable, Matches, FormOf;
    GuardedBody(p, body, c, call, inner, t, cur);
    GuardedReady(p, body, c, call, inner, t, cur, g);
    GuardedTidy(p, body, c, call, inner, t);
    TryBodyRun(p, cp, s, flow, cur, g, st, f, fuel);
    ends := GuardedEnds(p, body, c, call, st, fuel);
    var b, r := EmitTryBody(p, s, cur, g), Exec(p, body, st, fuel);
    var d := CExecSeq(cp, b.code, st, f[cur := false], fuel);
    if Ended(r, Thrown) && fuel > 0 {
      var st1 := r.value.store;
      HandlerRun(p, cp, c, call, t, flow, cur, b.gen, st1, d.value.flags, fuel - 1);
      MatchesToo(flow, Alias(b.gen, cur), Alias(g, cur), d.value.flags, false, false, false, ends,
                 CExecSeq(cp, Emit(p, s.catchBody, flow, cur, b.gen).code, st1, d.value.flags, fuel - 1));
    }
    TryRun(p, cp, s, flow, cur, g, st, f, true, fuel, false, r, ends);
  }

  /** The body of a try, with the flag cleared and the handler in force. */
  lemma TryBodyRun(p: Program, cp: CProgram, s: Stmt, flow: Flow, cur: Table, g: Gen, st: Store, f: Flags, fuel: nat)
    requires s.Try? && GoodTryBody(p, s, cur)
    requires Compiled(p, cp) && Tidy(p, s) && Apart(s, cur) && Ready(p, s, flow, cur, g, f, true)
    ensures var r, c := Exec(p, s.tryBody, st, fuel), CExecSeq(cp, EmitTryBody(p, s, cur, g).code, st, f[cur := false], fuel);
            && Matches(Flow(cur, Some(cur)), g.next, f[cur := false], true, true, r, c)
            && (Ended(r, Thrown) ==> c.Some? && c.value.store == r.value.store && Lookup(c.value.flags, cur) == Some(true))
  {
    hide Exec, Emit, EmitTryBody, CExecSeq, Tidy, TidyItem, Apart, Compiled, Clobbers, Steady, Needs, Ready, TryBodyTable;
    var inner, inside, g0 := TryBodyTable(s, cur), Flow(cur, Some(cur)), Gen(g.aliases[cur := g.next], g.next + 1);
    TryParts(p, s, flow, cur, g, f, true);
    EmitTryBodyIs(p, s, cur, g);
    Sim(p, cp, s.tryBody, inside, inner, g0, st, f[cur := false], true, fuel);
  }

  lemma GuardedReady(p: Program, body: Stmt, c: Store -> bool, call: Stmt, inner: Table, t: Table, cur: Table, g: Gen)
    ensures Ready(p, Guarded(body, c, call, inner, t), Flow(cur, None), cur, g, map[cur := false], true)
  {
  }

  lemma ThrowSteady(p: Program, exec: Table, cur: Table)
    ensures Steady(p, Block([Throw]), exec, cur, true)
  {
    var ps := ListParts([Throw], cur);
    assert ps == [Part(Throw, cur)] && ps[1..] == [];
  }

  lemma {:induction false} HandlerRun(p: Program, cp: CProgram, c: Store -> bool, call: Stmt, t: Table, flow: Flow, cur: Table,
                                      g: Gen, st: Store, f: Flags, fuel: nat)
    requires Compiled(p, cp) && call.Call? && call.callee in p && !EmptyMethod(p, call.callee)
    requires flow.throwing.None? && Lookup(f, flow.exec) == Some(true)
    ensures var handler := Block([If(Cond(c, Unknown), t, call, NoElse)]);
            Matches(flow, Alias(g, flow.exec), f, false, false,
                    if c(st) then Exec(p, call, st, fuel) else Some(Run(Thrown, st)),
                    CExecSeq(cp, Emit(p, handler, flow, cur, g).code, st, f, fuel))
  {
    CallInHandler(p, c, call, t, flow, g, f);
    HandlerCode(p, c, call, t, flow, cur, g);
    var code := CallCode(p, call, flow, g);
    var items := [CIf(OnStore(c), code[0], None), code[1]];
    hide *;
    Braces(cp, items, st, f, fuel);
    assert items == [items[0]] + [code[1]] && code == [code[0]] + [code[1]];
    SeqThen(cp, [items[0]], [code[1]], st, f, fuel);
    SeqThen(cp, [code[0]], [code[1]], st, f, fuel);
    SeqOne(cp, items[0], st, f, fuel);
    SeqOne(cp, code[0], st, f, fuel);
    CExecOfIf(cp, items[0], st, f, fuel);
    DecideStore(c, st, f);
    if c(st) {
      SimCall(p, cp, call, flow, t, g, st, f, false, fuel);
      MatchesToo(flow, Alias(g, flow.exec), Alias(g, flow.exec), f, false, false || Resets(p, call), false,
                 Exec(p, call, st, fuel), CExecSeq(cp, code, st, f, fuel));
    } else {
      SimCallTest(cp, code[1], flow, g, st, f, fuel);
      ThrownMatches(flow, Alias(g, flow.exec), f, st);
    }
  }

  lemma HandlerCode(p: Program, c: Store -> bool, call: Stmt, t: Table, flow: Flow, cur: Table, g: Gen)
    requires call.Call? && call.callee in p && !EmptyMethod(p, call.callee)
    ensures var code := CallCode(p, call, flow, g);
            && |code| == 2 && !code[1].CLabel?
            && code[1] == CIf(OnFlag(flow.exec), CBlock(None, [ExitCode(flow, g)]), None)
            && Emit(p, Block([If(Cond(c, Unknown), t, call, NoElse)]), flow, cur, g).code ==
               [CBlock(None, [CIf(OnStore(c), code[0], None), code[1]])]
  {
    hide Emit;
    var s := If(Cond(c, Unknown), t, call, NoElse);
    assert Tidy(p, call) && Tidy(p, s);
    JoinedElse(p, c, call, t, Throw, flow, cur, g);
    SingleBlockCode(p, Block([s]), s, flow, cur, g);
    CallHasTest(p, call, flow, g);
  }

  lemma DecideStore(c: Store -> bool, st: Store, f: Flags)
    ensures Decide(OnStore(c), st, f) == Some(c(st))
  {
  }

  lemma CallInHandler(p: Program, c: Store -> bool, call: Stmt, t: Table, flow: Flow, g: Gen, f: Flags)
    requires call.Call? && call.callee in p && !EmptyMethod(p, call.callee)
    requires flow.throwing.None? && Lookup(f, flow.exec) == Some(true)
    ensures Tidy(p, call) && Tidy(p, If(Cond(c, Unknown), t, call, NoElse))
    ensures flow.exec in f && f[flow.exec] && Ready(p, call, flow, t, g, f, false)
  {
  }

  lemma ThrownMatches(flow: Flow, l: Label, f: Flags, st: Store)
    requires flow.throwing.None?
    ensures Matches(flow, l, f, false, false, Some(Run(Thrown, st)), Some(CRun(Image(Thrown, flow, l), st, f)))
  {
  }

  /** An inlined body is translated faithfully on exactly the runs that do not end in a return, which
      would leave the method that it is inlined into. */
  lemma InlineIsRightIff(p: Program, cp: CProgram, s: Stmt, flow: Flow, cur: Table, g: Gen,
                         st: Store, f: Flags, clean: bool, fuel: nat)
    requires s.Inline? && !IsEmpty(s.inlined) && Compiled(p, cp) && Tidy(p, s.inlined)
    requires Apart(s.inlined, s.methodTable) && Ready(p, s.inlined, flow, s.methodTable, g, f, clean)
    requires Steady(p, s.inlined, flow.exec, s.methodTable, clean)
    ensures Matches(flow, Alias(g, flow.exec), f, clean, clean || Resets(p, s), Exec(p, s, st, fuel),
                    CExecSeq(cp, Emit(p, s, flow, cur, g).code, st, f, fuel)) <==>
            !Ended(Exec(p, s.inlined, s.bind(st), fuel), Returned)
    ensures !MayEnd(s.inlined, Returned) ==> !Ended(Exec(p, s.inlined, s.bind(st), fuel), Returned)
  {
    hide Exec, CExec, CExecSeq, CExecBlock, Emit, Tidy, TidyItem, Needs, Clobbers, Apart, Steady;
    var code := Emit(p, s, flow, cur, g).code;
    InlineParts(p, s, flow, cur, g, st, fuel);
    TidyIsItem(p, s.inlined);
    Sim(p, cp, s.inlined, flow, s.methodTable, g, s.bind(st), f, clean, fuel);
    InlineItems(p, cp, s, flow, cur, g, st, f, clean, fuel);
    SeqOne(cp, code[0], st, f, fuel);
    CExecOfBlock(cp, code[0], st, f, fuel);
    if !MayEnd(s.inlined, Returned) {
      NeverEnds(p, s.inlined, Returned, s.bind(st), fuel);
    }
  }

  /** A return in an inlined method leaves the method it is inlined into. */
  lemma InlinedReturn(p: Program, cp: CProgram, flow: Flow, t: Table, g: Gen, st: Store, f: Flags, fuel: nat)
    ensures var s := Inline(IDENTITY, t, Block([Return]), IDENTITY);
            && Exec(p, s, st, fuel) == Some(Run(Normal, st))
            && CExecSeq(cp, Emit(p, s, flow, t, g).code, st, f, fuel) == Some(CRun(CReturned(false), st, f))
  {
    var body := Block([Return]);
    var s := Inline(IDENTITY, t, body, IDENTITY);
    ExecSingle(p, Return, st, fuel);
    EmitOne(p, Part(Return, t), body, flow, g);
    assert ListParts([Return], t) == [Part(Return, t)];
    EmitLeaf(p, Return, flow, t, g);
    EmitAssembled(p, body, flow, t, g);
    assert Emit(p, body, flow, t, g).code == [CBlock(None, [CReturn(false)])];
    EmitOne(p, Part(body, t), s, flow, g);
    EmitAssembled(p, s, flow, t, g);
    var items := [CDo(IDENTITY)] + [CBlock(None, [CReturn(false)])] + [CDo(IDENTITY)];
    Braces(cp, items, st, f, fuel);
    assert items[1..][0] == CBlock(None, [CReturn(false)]);
    Braces(cp, [CReturn(false)], st, f, fuel);
    SeqOne(cp, CReturn(false), st, f, fuel);
    SeqOne(cp, CBlock(None, [CReturn(false)]), st, f, fuel);
    assert CExec(cp, items[0], st, f, fuel) == Some(CRun(CNormal, st, f));
  }

  /** A call that the search for exceptions passes over uses a flag that its function does not declare. */
  lemma UndeclaredFlag(p: Program, cp: CProgram, call: Stmt, t: Table, stale: Flow, g: Gen, st: Store, fuel: nat)
    requires call.Call? && call.callee in p && !IsEmpty(p[call.callee].body) && stale.throwing.None?
    requires ExecMethod(p, call.callee, call.enter(st), fuel).Some?
    ensures var m := Method(t, Block([Labeled(call)]));
            && !HasExec(m)
            && Exec(p, m.body, st, fuel).Some?
            && Result(CExecBlock(cp, EmitMethod(p, m, stale, g).code, 0, st, map[], fuel)) == None
  {
    var s, body := Labeled(call), Block([Labeled(call)]);
    var m := Method(t, body);
    ExecSingle(p, s, st, fuel);
    SeqHasSingle(s, CallKind);
    SeqHasSingle(s, ThrowKind);
    SeqHasSingle(s, ReturnKind);
    assert !HasExec(m) && !HasReturn(m);
    assert Tidy(p, call) && Tidy(p, s);
    hide Emit, Exec, HasExec, HasReturn;
    var code := CallCode(p, call, stale, g);
    EmitLeaf(p, call, stale, t, g);
    EmitOne(p, Part(call, t), s, stale, g);
    EmitAssembled(p, s, stale, t, g);
    SingleBlockCode(p, body, s, stale, t, g);
    NoMeaning(cp, code, stale.exec, st, fuel);
  }

  lemma NoMeaning(cp: CProgram, code: seq<CStmt>, x: Flag, st: Store, fuel: nat)
    requires code != [] && code[0].CCall? && code[0].flag == x
    ensures CExecBlock(cp, [CBlock(None, [CBlock(None, [CBlock(None, code)]), CReturn(false)])], 0, st, map[], fuel) == None
  {
    var a := [CBlock(None, code)];
    var b := [CBlock(None, a), CReturn(false)];
    StuckAtFirst(cp, code, st, fuel);
    StuckAtFirst(cp, a, st, fuel);
    StuckAtFirst(cp, b, st, fuel);
    StuckAtFirst(cp, [CBlock(None, b)], st, fuel);
  }

  lemma StuckAtFirst(cp: CProgram, items: seq<CStmt>, st: Store, fuel: nat)
    requires items != [] && CExec(cp, items[0], st, map[], fuel) == None
    ensures CExecBlock(cp, items, 0, st, map[], fuel) == None
    ensures CExec(cp, CBlock(None, items), st, map[], fuel) == None
  {
    assert items[0..] == items;
    assert CExecSeq(cp, items, st, map[], fuel) == None;
  }
}
