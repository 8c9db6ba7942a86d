/** The code generator: global variables that are overwritten and restored while text is written. */
module Generation {
  import opened Common
  import opened Dml
  import opened CTarget
  import opened FlowControl
  import opened Emission
  import opened TidyBodies
  import opened Simulation

  /** Reading the flow context through a null pointer stops the compiler. */
  datatype Status = Going | Crashed {
    predicate IsFailure() {
      Crashed?
    }

    function PropagateFailure(): Status
      requires IsFailure()
    {
      this
    }
  }

  /** Translating the statement reads the flow context. */
  predicate ReadsFlow(p: Program, s: Stmt)
    decreases s, 1
  {
    match s
    case Try(_, _, _) => true
    case Throw => true
    case Call(m, _, _) => !EmptyMethod(p, m)
    case Block(ss) => SomeReads(p, ss)
    case Switch(_, ss) => SomeReads(p, ss)
    case If(c, _, thn, els) => (!c.folded.IsFalse? && ReadsFlow(p, thn)) || (!c.folded.IsTrue? && ElseReads(p, els))
    case While(_, _, body) => ReadsFlow(p, body)
    case For(_, _, _, _, body) => ReadsFlow(p, body)
    case Case(_, body) => ReadsFlow(p, body)
    case Default(body) => ReadsFlow(p, body)
    case Labeled(body) => ReadsFlow(p, body)
    case Inline(_, _, body, _) => ReadsFlow(p, body)
    case _ => false
  }

  predicate ElseReads(p: Program, els: Else)
    decreases els, 0
  {
    match els
    case NoElse => false
    case ElseIf(s) => ReadsFlow(p, s)
    case ElseBlock(_, s) => ReadsFlow(p, s)
  }

  predicate SomeReads(p: Program, ss: seq<Stmt>)
    decreases ss, 0
  {
    ss != [] && (ReadsFlow(p, ss[0]) || SomeReads(p, ss[1..]))
  }

  /** No method reads the flow context before one has set it up; `isSet` says whether that has happened. */
  predicate GetsThrough(p: Program, names: seq<Name>, isSet: bool)
    requires forall m <- names :: m in p
  {
    names == [] ||
    var m := p[names[0]];
    && (isSet || HasExec(m) || !ReadsFlow(p, m.body))
    && GetsThrough(p, names[1..], isSet || HasExec(m))
  }

  /** Generation gets through if and only if every method without a flag that reads the flow context
      has a method with a flag in front of it. */
  lemma {:induction false} GetsThroughIff(p: Program, names: seq<Name>, isSet: bool)
    requires forall m <- names :: m in p
    ensures GetsThrough(p, names, isSet) <==>
            forall i | 0 <= i < |names| ::
              HasExec(p[names[i]]) || !ReadsFlow(p, p[names[i]].body)
              || isSet || exists j | 0 <= j < i :: HasExec(p[names[j]])
  {
    hide HasExec, ReadsFlow;
    if names != [] {
      var rest, now := names[1..], isSet || HasExec(p[names[0]]);
      assert forall m <- rest :: m in names;
      GetsThroughIff(p, rest, now);
      if GetsThrough(p, names, isSet) {
        forall i | 0 <= i < |names|
          ensures HasExec(p[names[i]]) || !ReadsFlow(p, p[names[i]].body)
                  || isSet || exists j | 0 <= j < i :: HasExec(p[names[j]]) {
          if i > 0 {
            assert rest[i - 1] == names[i];
            if j :| 0 <= j < i - 1 && HasExec(p[rest[j]]) {
              assert names[j + 1] == rest[j];
            }
          }
        }
      } else if isSet || HasExec(p[names[0]]) || !ReadsFlow(p, p[names[0]].body) {
        var i :| 0 <= i < |rest| && !HasExec(p[rest[i]]) && ReadsFlow(p, p[rest[i]].body)
                 && !now && forall j | 0 <= j < i :: !HasExec(p[rest[j]]);
        assert names[i + 1] == rest[i];
        forall j | 0 <= j < i + 1 ensures !HasExec(p[names[j]]) {
          if j > 0 {
            assert names[j] == rest[j - 1];
          }
        }
      }
    }
  }

  /** A device whose first method handles all of its exceptions stops the compiler. */
  lemma HandledFirst(p: Program, name: Name, rest: seq<Name>, t: Table)
    requires name in p && (forall m <- rest :: m in p)
    requires p[name].body == Block([Try(t, Block([Throw]), Block([]))])
    ensures !GetsThrough(p, [name] + rest, false)
  {
    var s, names := Try(t, Block([Throw]), Block([])), [name] + rest;
    forall k: Kind | k == CallKind || k == ThrowKind ensures !BlockHas(p[name].body, k) {
      SeqHasSingle(s, k);
      assert !BlockHas(Block([]), k);
    }
    assert SomeReads(p, [s]);
    assert names[0] == name && !HasExec(p[name]) && ReadsFlow(p, p[name].body);
  }

  class Generator {
    const program: Program
    var isSet: bool                      // flow != NULL; the next two fields are only read where it holds
    var exec: Table                      // flow->exec, named by its table
    var throwing: Option<Table>          // flow->_throw
    var currentTable: Table
    var aliases: map<Table, Label>       // names of the throw symbols
    var throwIndex: Label
    var out: seq<CStmt>

    constructor (p: Program)
      ensures program == p && out == [] && !isSet && throwing.None?
    {
      program, out, aliases, throwIndex := p, [], map[], 1;
      isSet, exec, throwing, currentTable := false, 0, None, 0;
    }

    function FlowNow(): Flow
      reads this
    {
      Flow(exec, throwing)
    }

    function GenNow(): Gen
      reads this
    {
      Gen(aliases, throwIndex)
    }

    /** Text e has been added for a statement, and what had to be restored has been. */
    twostate predicate Added(e: Emitted)
      reads this
    {
      && out == old(out) + e.code && GenNow() == e.gen
      && FlowNow() == old(FlowNow()) && currentTable == old(currentTable) && isSet == old(isSet)
    }

    /** The translation of s stops exactly where it reads a flow context that is not there, and else adds the text of s. */
    twostate predicate Translated(s: Stmt, r: Status)
      reads this
    {
      && (r.Crashed? <==> !old(isSet) && ReadsFlow(program, s))
      && (r.Going? ==> Added(Emit(program, s, old(FlowNow()), old(currentTable), old(GenNow()))))
    }

    method Translate(s: Stmt) returns (r: Status)
      modifies this
      ensures Translated(s, r)
      decreases s, 3
    {
      hide Emit;
      ghost var flow, cur, g := FlowNow(), currentTable, GenNow();
      if !s.Try? {
        EmitAssembled(program, s, flow, cur, g);
      }
      match s
      case Block(_) => r := TranslateBlock(s);
      case Switch(_, _) => r := TranslateSwitch(s);
      case If(_, _, _, _) => r := TranslateIfElse(s);
      case While(_, _, _) => r := TranslateWhile(s);
      case For(_, _, _, _, _) => r := TranslateFor(s);
      case Case(k, body) =>
        out := out + [CCase(k)];
        :- Translate(body);
        EmitOne(program, Part(body, cur), s, flow, g);
        assert out == old(out) + ([CCase(k)] + Emit(program, body, flow, cur, g).code);
        return Going;
      case Default(body) =>
        out := out + [CDefault];
        :- Translate(body);
        EmitOne(program, Part(body, cur), s, flow, g);
        assert out == old(out) + ([CDefault] + Emit(program, body, flow, cur, g).code);
        return Going;
      case Labeled(body) =>
        :- Translate(body);
        EmitOne(program, Part(body, cur), s, flow, g);
        return Going;
      case Call(_, _, _) => r := TranslateCall(s);
      case Inline(_, _, _, _) => r := TranslateInline(s);
      case Try(_, _, _) => r := TranslateTryCatch(s);
      case Throw => r := TranslateThrow(s);
      case Do(act) => out := out + [CDo(act)]; return Going;
      case Return => out := out + [CReturn(false)]; return Going;
      case Break => out := out + [CBreak]; return Going;
      case Continue => out := out + [CContinue]; return Going;
    }

    /** The statements of a block, appended one after the other inside of new braces. */
    method TranslateList(ss: seq<Stmt>, ghost whole: Stmt) returns (r: Status)
      requires forall x <- ss :: x < whole
      modifies this
      ensures r.Crashed? <==> !old(isSet) && SomeReads(program, ss)
      ensures r.Going? ==>
                Added(Emitted(ListCode(program, ss, whole, old(FlowNow()), old(currentTable), old(GenNow())),
                              ListGen(program, ss, whole, old(FlowNow()), old(currentTable), old(GenNow()))))
      decreases whole, 1
    {
      hide Emit, ListCode, ListGen, ReadsFlow;
      ghost var flow, cur, g := FlowNow(), currentTable, GenNow();
      ghost var done: seq<CStmt> := [];
      var i := 0;
      assert ss[0..] == ss;
      while i < |ss|
        invariant 0 <= i <= |ss|
        invariant FlowNow() == flow && currentTable == cur && isSet == old(isSet)
        invariant forall x <- ss[i..] :: x < whole
        invariant out == old(out) + done
        invariant isSet || SomeReads(program, ss) == SomeReads(program, ss[i..])
        invariant ListCode(program, ss, whole, flow, cur, g)
               == done + ListCode(program, ss[i..], whole, flow, cur, GenNow())
        invariant ListGen(program, ss, whole, flow, cur, g) == ListGen(program, ss[i..], whole, flow, cur, GenNow())
      {
        ListStepCode(program, ss[i..], whole, flow, cur, GenNow());
        assert ss[i] in ss[i..] && ss[i..][1..] == ss[i + 1..];
        done := done + Emit(program, ss[i], flow, cur, GenNow()).code;
        :- Translate(ss[i]);
        i := i + 1;
      }
      assert ss[i..] == [];
      EmptyList(program, whole, flow, cur, GenNow());
      assert done + [] == done;
      assert ListCode(program, ss, whole, flow, cur, g) == done;
      assert ListGen(program, ss, whole, flow, cur, g) == GenNow();
      return Going;
    }

    method TranslateBlock(s: Stmt) returns (r: Status)
      requires s.Block?
      modifies this
      ensures Translated(s, r)
      decreases s, 2
    {
      var saved := out;
      out := [];
      :- TranslateList(s.stmts, s);
      assert out == ListCode(program, s.stmts, s, old(FlowNow()), old(currentTable), old(GenNow()));
      out := saved + [CBlock(None, Joined(out))];
      return Going;
    }

    method TranslateSwitch(s: Stmt) returns (r: Status)
      requires s.Switch?
      modifies this
      ensures Translated(s, r)
      decreases s, 2
    {
      var saved := out;
      out := [];
      :- TranslateList(s.cases, s);
      assert out == ListCode(program, s.cases, s, old(FlowNow()), old(currentTable), old(GenNow()));
      out := saved + [CSwitch(s.selector, Joined(out))];
      return Going;
    }

    /** The text of a statement under another table, which is current only meanwhile. */
    method TranslateUnder(s: Stmt, table: Table) returns (r: Status, code: seq<CStmt>)
      modifies this
      ensures r.Crashed? <==> !old(isSet) && ReadsFlow(program, s)
      ensures r.Going? ==>
                && code == Emit(program, s, old(FlowNow()), table, old(GenNow())).code
                && GenNow() == Emit(program, s, old(FlowNow()), table, old(GenNow())).gen
                && FlowNow() == old(FlowNow()) && currentTable == old(currentTable) && out == old(out)
                && isSet == old(isSet)
      decreases s, 4
    {
      var saved, savedOut := currentTable, out;
      currentTable, out, code := table, [], [];
      :- Translate(s);
      code := out;
      currentTable, out := saved, savedOut;
      r := Going;
    }

    method TranslateIfElse(s: Stmt) returns (r: Status)
      requires s.If?
      modifies this
      ensures Translated(s, r)
      decreases s, 2
    {
      ghost var flow, cur, g := FlowNow(), currentTable, GenNow();
      var t := s;
      while t.cond.folded.IsFalse? && t.els.ElseIf? && t.els.elseIf.If?
        invariant t.If? && (t == s || t < s)
        invariant Emit(program, t, flow, cur, g) == Emit(program, s, flow, cur, g)
        invariant ReadsFlow(program, t) == ReadsFlow(program, s)
        modifies {}
        decreases t
      {
        EmitOne(program, Part(t.els.elseIf, cur), t, flow, g);
        t := t.els.elseIf;
      }
      if t.cond.folded.IsTrue? {
        EmitOne(program, Part(t.thn, t.thenTable), t, flow, g);
        var code :- TranslateUnder(t.thn, t.thenTable);
        out := out + code;
      } else if t.cond.folded.IsFalse? {
        match t.els {
          case NoElse =>
            assert out == out + [];
          case ElseIf(e) =>
            EmitOne(program, Part(e, cur), t, flow, g);
            :- Translate(e);
          case ElseBlock(table, e) =>
            EmitOne(program, Part(e, table), t, flow, g);
            var code :- TranslateUnder(e, table);
            out := out + code;
        }
      } else {
        :- TranslateTested(t);
      }
      return Going;
    }

    /** An `if` that stays an `if`. */
    method TranslateTested(s: Stmt) returns (r: Status)
      requires s.If? && s.cond.folded.Unknown?
      modifies this
      ensures Translated(s, r)
      decreases s, 1
    {
      ghost var flow, cur, g := FlowNow(), currentTable, GenNow();
      var thn :- TranslateUnder(s.thn, s.thenTable);
      match s.els {
        case NoElse =>
          EmitOne(program, Part(s.thn, s.thenTable), s, flow, g);
          out := out + IfCode(OnStore(s.cond.test), thn, None);
        case ElseIf(e) =>
          var table := if e.If? then e.thenTable else currentTable;
          EmitTwo(program, Part(s.thn, s.thenTable), Part(e, table), s, flow, g);
          var els :- TranslateUnder(e, table);
          out := out + IfCode(OnStore(s.cond.test), thn, Some(els));
        case ElseBlock(table, e) =>
          EmitTwo(program, Part(s.thn, s.thenTable), Part(e, table), s, flow, g);
          var els :- TranslateUnder(e, table);
          out := out + IfCode(OnStore(s.cond.test), thn, Some(els));
      }
      return Going;
    }

    method TranslateWhile(s: Stmt) returns (r: Status)
      requires s.While?
      modifies this
      ensures Translated(s, r)
      decreases s, 2
    {
      var table := if s.whileBody.Block? then s.whileTable else currentTable;
      EmitOne(program, Part(s.whileBody, table), s, FlowNow(), GenNow());
      var body :- TranslateUnder(s.whileBody, table);
      out := out + LoopCode(IDENTITY, s.guard, IDENTITY, body);
      return Going;
    }

    method TranslateFor(s: Stmt) returns (r: Status)
      requires s.For?
      modifies this
      ensures Translated(s, r)
      decreases s, 2
    {
      EmitOne(program, Part(s.forBody, s.forTable), s, FlowNow(), GenNow());
      var body :- TranslateUnder(s.forBody, s.forTable);
      out := out + LoopCode(s.init, s.test, s.update, body);
      return Going;
    }

    method TranslateInline(s: Stmt) returns (r: Status)
      requires s.Inline?
      modifies this
      ensures Translated(s, r)
      decreases s, 2
    {
      if IsEmpty(s.inlined) {
        assert !SomeReads(program, []);
        return Going;
      }
      EmitOne(program, Part(s.inlined, s.methodTable), s, FlowNow(), GenNow());
      var body :- TranslateUnder(s.inlined, s.methodTable);
      out := out + [CBlock(None, [CDo(s.bind)] + body + [CDo(s.copyOut)])];
      return Going;
    }

    /** The jump to the handler in force, or out of the function. */
    method TranslateExit() returns (c: CStmt)
      requires isSet
      ensures c == ExitCode(FlowNow(), GenNow())
    {
      if throwing.None? {
        c := CReturn(true);
      } else {
        c := CGoto(if throwing.value in aliases then aliases[throwing.value] else 0);
      }
    }

    method TranslateThrow(s: Stmt) returns (r: Status)
      requires s.Throw?
      modifies this`out
      ensures Translated(s, r)
      decreases s, 2
    {
      if !isSet {
        return Crashed;
      }
      var c := TranslateExit();
      if throwing.None? {
        out := out + [c];
      } else {
        out := out + [CBlock(None, [CSetFlag(exec), c])];
      }
      return Going;
    }

    method TranslateCall(s: Stmt) returns (r: Status)
      requires s.Call?
      modifies this`out
      ensures Translated(s, r)
      decreases s, 2
    {
      if s.callee in program && IsEmpty(program[s.callee].body) {
        return Going;
      }
      if !isSet {
        return Crashed;
      }
      out := out + [CCall(exec, s.callee, s.enter, s.leave)];
      var c := TranslateExit();
      out := out + [CIf(OnFlag(exec), CBlock(None, [c]), None)];
      return Going;
    }

    /** The throw symbol gets the next name, however often it has been named before. */
    method SetThrowSymbolAlias(t: Table)
      modifies this`aliases, this`throwIndex
      ensures aliases == old(aliases)[t := old(throwIndex)] && throwIndex == old(throwIndex) + 1
    {
      aliases := aliases[t := throwIndex];
      throwIndex := throwIndex + 1;
    }

    method TranslateTryCatch(s: Stmt) returns (r: Status)
      requires s.Try?
      modifies this
      ensures Translated(s, r)
      decreases s, 2
    {
      hide Emit, EmitTryBody, TryCode;
      var sym := currentTable;
      EmitTry(program, s, FlowNow(), sym, GenNow());
      SetThrowSymbolAlias(sym);
      if !isSet {
        return Crashed;
      }
      var savedExec, savedThrowing := exec, throwing;
      exec, throwing := sym, Some(sym);
      var r1, body := TranslateUnder(s.tryBody, if s.tryBody.Block? then s.tryTable else currentTable);
      exec, throwing := savedExec, savedThrowing;
      var name := if sym in aliases then aliases[sym] else 0;
      var r2, handler := TranslateUnder(s.catchBody, currentTable);
      out := out + TryCode(sym, body, name, handler);
      return Going;
    }

    /** One generated function. The flow context it sets up stays behind. */
    method GenDmlMethod(m: Method) returns (r: Status, code: seq<CStmt>)
      requires throwing.None?
      modifies this
      ensures r.Crashed? <==> !old(isSet) && !HasExec(m) && ReadsFlow(program, m.body)
      ensures r.Going? ==>
                && code == EmitMethod(program, m, old(FlowNow()), old(GenNow())).code
                && GenNow() == EmitMethod(program, m, old(FlowNow()), old(GenNow())).gen
                && throwing.None? && currentTable == old(currentTable) && out == old(out)
                && isSet == (old(isSet) || HasExec(m))
    {
      if IsEmpty(m.body) {
        assert !SomeReads(program, []) && !SeqHas([], CallKind) && !SeqHas([], ThrowKind);
        return Going, [CReturn(false)];
      }
      var hasExec, hasReturn := HasExec(m), HasReturn(m);
      if hasExec {
        isSet, exec, throwing := true, m.table, None;
      }
      code :- TranslateUnder(m.body, m.table);
      if hasReturn {
        code := [CBlock(None, code + [CDo(IDENTITY)])];
      }
      if hasExec {
        code := [CBlock(Some(m.table), code)];
      }
      code := [CBlock(None, [CBlock(None, code), CReturn(false)])];
      r := Going;
    }

    /** All functions, in the order in which the methods come up. */
    method GenerateAll(names: seq<Name>) returns (r: Status, functions: CProgram)
      requires throwing.None?
      requires forall m :: m in program <==> m in names
      requires forall m | m in program :: GoodMethod(program, program[m])
      modifies this
      ensures r.Going? <==> GetsThrough(program, names, old(isSet))
      ensures r.Going? ==> Compiled(program, functions)
    {
      hide HasExec, ReadsFlow, GoodMethod, EmitMethod;
      functions := map[];
      assert names[0..] == names;
      for i := 0 to |names|
        invariant throwing.None?
        invariant forall m <- names[i..] :: m in program
        invariant GetsThrough(program, names, old(isSet)) == GetsThrough(program, names[i..], isSet)
        invariant forall m | m in names[..i] :: FunctionFor(program, functions, m)
      {
        assert names[i] in names && names[i..][1..] == names[i + 1..];
        var code :- GenDmlMethod(program[names[i]]);
        ghost var before := functions;
        functions := functions[names[i] := code];
        forall m | m in names[..i + 1] ensures FunctionFor(program, functions, m) {
          assert m != names[i] ==> m in names[..i] && FunctionFor(program, before, m);
        }
      }
      assert names[..|names|] == names;
      r := Going;
    }
  }
}
