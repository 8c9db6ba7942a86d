/** Bodies whose text keeps the structure of the source. */
module TidyBodies {
  import opened Common
  import opened Dml
  import opened CTarget
  import opened FlowControl
  import opened Emission

  /** How much text a tidy statement becomes: none, one C statement, or one and behind it the test of
      the flag that comes with a call. */
  datatype Form = Nothing | Single | Tested | Several

  function FormOf(p: Program, s: Stmt): Form
    decreases s, 1
  {
    match s
    case Call(m, _, _) => if EmptyMethod(p, m) then Nothing else Tested
    case Case(_, _) => Several
    case Default(_) => Several
    case Labeled(body) => FormOf(p, body)
    case Inline(_, _, body, _) => if IsEmpty(body) then Nothing else Single
    case If(c, _, thn, els) =>
      (match c.folded
       case IsTrue => FormOf(p, thn)
       case IsFalse => ElseForm(p, els)
       case Unknown =>
         if els.NoElse? then FormOf(p, thn) else if FormOf(p, thn).Single? then ElseForm(p, els) else Several)
    case _ => Single
  }

  function ElseForm(p: Program, els: Else): Form
    decreases els, 0
  {
    match els
    case NoElse => Nothing
    case ElseIf(e) => FormOf(p, e)
    case ElseBlock(_, e) => FormOf(p, e)
  }

  /** The text does not end in an `if` that a following `else` would join. */
  predicate Closed(s: Stmt)
    decreases s, 1
  {
    match s
    case If(c, _, thn, els) => if c.folded.IsTrue? then Closed(thn) else ElseClosed(els)
    case While(_, _, body) => Closed(body)
    case For(_, _, _, _, body) => Closed(body)
    case Labeled(body) => Closed(body)
    case _ => true
  }

  predicate ElseClosed(els: Else)
    decreases els, 0
  {
    match els
    case NoElse => false
    case ElseIf(e) => Closed(e)
    case ElseBlock(_, e) => Closed(e)
  }

  /** The branches of an `if` that stays one end up as its branches. */
  predicate FitsIf(p: Program, thn: Stmt, els: Else) {
    var f, e := FormOf(p, thn), ElseForm(p, els);
    if els.NoElse? then f.Single? || f.Tested? else f.Single? && Closed(thn) && (e.Single? || e.Tested?)
  }

  /** What the code expects of a method body:
      folded conditions have the value the folder gives them; a statement without braces becomes one
      C statement, with the test of a call behind it only where that does no harm, and leaves no `if`
      open before an `else`; switch labels stand in switch blocks; callees exist, and calling an empty
      one changes nothing; inlined bodies do not return. */
  ghost predicate Tidy(p: Program, s: Stmt)
    decreases s, 2
  {
    match s
    case Block(ss) => forall x <- ss :: Tidy(p, x)
    case If(c, _, thn, els) =>
      && (c.folded != Unknown ==> forall st :: c.test(st) == c.folded.IsTrue?)
      && (c.folded != IsFalse ==> Tidy(p, thn))
      && (c.folded != IsTrue ==> TidyElse(p, els))
      && (c.folded.Unknown? ==> FitsIf(p, thn, els))
    case While(_, _, body) => Tidy(p, body) && FormOf(p, body).Single?
    case For(_, _, _, _, body) => Tidy(p, body) && FormOf(p, body).Single?
    case Switch(_, cases) => forall x <- cases :: TidyItem(p, x)
    case Case(_, _) => false
    case Default(_) => false
    case Labeled(body) => Tidy(p, body)
    case Call(m, enter, leave) =>
      m in p && (IsEmpty(p[m].body) ==> forall st {:trigger enter(st)} :: leave(st, enter(st)) == st)
    case Inline(bind, _, body, copyOut) =>
      && !MayEnd(body, Returned) && Tidy(p, body)
      && (IsEmpty(body) ==> forall st {:trigger bind(st)} :: copyOut(bind(st)) == st)
    case Try(_, body, handler) =>
      Tidy(p, body) && Tidy(p, handler) && (FormOf(p, handler).Single? || FormOf(p, handler).Tested?)
    case _ => true
  }

  ghost predicate TidyElse(p: Program, els: Else)
    decreases els, 0
  {
    match els
    case NoElse => true
    case ElseIf(e) => Tidy(p, e)
    case ElseBlock(_, e) => Tidy(p, e)
  }

  /** A statement of a switch block, with its labels. */
  ghost predicate TidyItem(p: Program, s: Stmt)
    decreases s, 3
  {
    match s
    case Case(_, body) => TidyItem(p, body)
    case Default(body) => TidyItem(p, body)
    case _ => Tidy(p, s)
  }

  ghost predicate NoLabels(code: seq<CStmt>) {
    forall c <- code :: !c.CCase? && !c.CDefault? && !c.CLabel?
  }

  ghost predicate NoHoles(code: seq<CStmt>) {
    forall c <- code :: !Hole(c)
  }

  predicate IsTest(c: CStmt, flow: Flow) {
    c.CIf? && c.cond == OnFlag(flow.exec) && c.thn.CBlock? && c.els.None?
  }

  lemma NothingJoined(code: seq<CStmt>)
    requires NoHoles(code)
    ensures Joined(code) == code
  {
  }

  lemma EmitOne(p: Program, x: Part, whole: Stmt, flow: Flow, g: Gen)
    requires x.stmt < whole
    ensures var e, r := Emit(p, x.stmt, flow, x.table, g), EmitParts(p, [x], whole, flow, g);
            r.0 == [e.code] && r.1 == e.gen && Concat(r.0) == e.code
  {
    assert [x][1..] == [];
    var e := Emit(p, x.stmt, flow, x.table, g);
    assert [e.code] + [] == [e.code] && [e.code][1..] == [];
    assert e.code + [] == e.code;
  }

  lemma EmitTwo(p: Program, x: Part, y: Part, whole: Stmt, flow: Flow, g: Gen)
    requires x.stmt < whole && y.stmt < whole
    ensures var e, r := Emit(p, x.stmt, flow, x.table, g), EmitParts(p, [x] + [y], whole, flow, g);
            var d := Emit(p, y.stmt, flow, y.table, e.gen);
            r.0 == [e.code, d.code] && r.1 == d.gen
  {
    assert ([x] + [y])[1..] == [y];
    var e := Emit(p, x.stmt, flow, x.table, g);
    EmitOne(p, y, whole, flow, e.gen);
    var d := Emit(p, y.stmt, flow, y.table, e.gen);
    assert [e.code] + [d.code] == [e.code, d.code];
  }

  lemma EmitAssembled(p: Program, s: Stmt, flow: Flow, cur: Table, g: Gen)
    requires !s.Try?
    ensures Emit(p, s, flow, cur, g).code == Assemble(p, s, flow, g, EmitParts(p, Parts(s, cur), s, flow, g).0)
    ensures Emit(p, s, flow, cur, g).gen == EmitParts(p, Parts(s, cur), s, flow, g).1
  {
  }

  lemma EmitTry(p: Program, s: Stmt, flow: Flow, cur: Table, g: Gen)
    requires s.Try?
    ensures EmitTryBody(p, s, cur, g) ==
            Emit(p, s.tryBody, Flow(cur, Some(cur)), TryBodyTable(s, cur), Gen(g.aliases[cur := g.next], g.next + 1))
    ensures var b := EmitTryBody(p, s, cur, g);
            var h := Emit(p, s.catchBody, flow, cur, b.gen);
            Emit(p, s, flow, cur, g) == Emitted(TryCode(cur, b.code, Alias(b.gen, cur), h.code), h.gen)
  {
  }

  /** A text of some form, all of whose heads have their statements. */
  ghost predicate HasForm(form: Form, closed: bool, flow: Flow, code: seq<CStmt>) {
    && NoLabels(code) && NoHoles(code)
    && (match form
        case Nothing => code == []
        case Single => |code| == 1 && (Open(code[0]) <==> !closed)
        case Tested => |code| == 2 && IsTest(code[1], flow)
        case Several => false)
  }

  ghost predicate Shaped(p: Program, s: Stmt, flow: Flow, code: seq<CStmt>) {
    HasForm(FormOf(p, s), Closed(s), flow, code)
  }

  /** The text of a tidy statement has its form, and a following `else` would join it exactly if it is not closed. */
  lemma {:induction false} EmitShape(p: Program, s: Stmt, flow: Flow, cur: Table, g: Gen)
    requires Tidy(p, s)
    ensures Shaped(p, s, flow, Emit(p, s, flow, cur, g).code)
    decreases s, 2
  {
    match s
    case If(_, _, _, _) => IfShape(p, s, flow, cur, g);
    case While(_, _, _) => LoopShape(p, s, flow, cur, g);
    case For(_, _, _, _, _) => LoopShape(p, s, flow, cur, g);
    case Labeled(_) => LabelShape(p, s, flow, cur, g);
    case _ => LeafShape(p, s, flow, cur, g);
  }

  lemma LeafShape(p: Program, s: Stmt, flow: Flow, cur: Table, g: Gen)
    requires Tidy(p, s) && !s.If? && !s.While? && !s.For? && !s.Labeled?
    ensures Shaped(p, s, flow, Emit(p, s, flow, cur, g).code)
  {
    hide Emit, Joined, Concat, IfCode;
    if s.Try? {
      EmitTry(p, s, flow, cur, g);
    } else if s.Call? {
      CallShape(p, s, flow, cur, g);
    } else if s.Inline? {
      InlineShape(p, s, flow, cur, g);
    } else {
      EmitAssembled(p, s, flow, cur, g);
    }
  }

  lemma CallShape(p: Program, s: Stmt, flow: Flow, cur: Table, g: Gen)
    requires s.Call?
    ensures Shaped(p, s, flow, Emit(p, s, flow, cur, g).code)
  {
    hide Emit;
    EmitAssembled(p, s, flow, cur, g);
    assert !Hole(CBlock(None, [ExitCode(flow, g)]));
  }

  lemma InlineShape(p: Program, s: Stmt, flow: Flow, cur: Table, g: Gen)
    requires s.Inline?
    ensures Shaped(p, s, flow, Emit(p, s, flow, cur, g).code)
  {
    hide Emit;
    EmitAssembled(p, s, flow, cur, g);
    if !IsEmpty(s.inlined) {
      EmitOne(p, Part(s.inlined, s.methodTable), s, flow, g);
    }
  }

  lemma {:induction false} LabelShape(p: Program, s: Stmt, flow: Flow, cur: Table, g: Gen)
    requires s.Labeled? && Tidy(p, s)
    ensures Shaped(p, s, flow, Emit(p, s, flow, cur, g).code)
    decreases s, 1
  {
    hide Emit;
    EmitAssembled(p, s, flow, cur, g);
    EmitOne(p, Part(s.labeledBody, cur), s, flow, g);
    EmitShape(p, s.labeledBody, flow, cur, g);
  }

  lemma {:induction false} LoopShape(p: Program, s: Stmt, flow: Flow, cur: Table, g: Gen)
    requires (s.While? || s.For?) && Tidy(p, s)
    ensures Shaped(p, s, flow, Emit(p, s, flow, cur, g).code)
    decreases s, 1
  {
    hide Emit;
    EmitAssembled(p, s, flow, cur, g);
    var x := Parts(s, cur)[0];
    EmitOne(p, x, s, flow, g);
    EmitShape(p, x.stmt, flow, x.table, g);
    var body, code := Emit(p, x.stmt, flow, x.table, g).code, Emit(p, s, flow, cur, g).code;
    assert FormOf(p, s) == Single && Closed(s) == Closed(x.stmt) && Rest(body) == [];
    assert Open(code[0]) == Open(body[0]) && Hole(code[0]) == Hole(body[0]);
  }

  lemma {:induction false} IfShape(p: Program, s: Stmt, flow: Flow, cur: Table, g: Gen)
    requires s.If? && Tidy(p, s)
    ensures Shaped(p, s, flow, Emit(p, s, flow, cur, g).code)
    decreases s, 1
  {
    hide Emit;
    EmitAssembled(p, s, flow, cur, g);
    if s.cond.folded.IsTrue? {
      EmitOne(p, Part(s.thn, s.thenTable), s, flow, g);
      EmitShape(p, s.thn, flow, s.thenTable, g);
    } else if s.cond.folded.IsFalse? {
      assert Closed(s) == ElseClosed(s.els) && FormOf(p, s) == ElseForm(p, s.els);
      match s.els {
        case NoElse => assert ElseForm(p, s.els) == Nothing && Parts(s, cur) == [];
        case ElseIf(e) => EmitOne(p, Part(e, cur), s, flow, g); EmitShape(p, e, flow, cur, g);
        case ElseBlock(t, e) => EmitOne(p, Part(e, t), s, flow, g); EmitShape(p, e, flow, t, g);
      }
    } else {
      ElseBelongs(p, s, flow, cur, g);
      TestedIfShape(p, s, flow, cur, g);
    }
  }

  /** The texts of the branches of an `if` whose condition does not fold. */
  function ThenText(p: Program, s: Stmt, flow: Flow, g: Gen): seq<CStmt>
    requires s.If?
  {
    Emit(p, s.thn, flow, s.thenTable, g).code
  }

  function ElseText(p: Program, s: Stmt, flow: Flow, cur: Table, g: Gen): Option<seq<CStmt>>
    requires s.If?
  {
    var ps := ElseParts(s.els, cur, true);
    if ps == [] then None
    else Some(Emit(p, ps[0].stmt, flow, ps[0].table, Emit(p, s.thn, flow, s.thenTable, g).gen).code)
  }

  /** The text is an `if` over the first statements of both branches, and what else these have stands behind it. */
  ghost predicate OwnBranches(code: seq<CStmt>, test: CTest, thn: seq<CStmt>, els: Option<seq<CStmt>>) {
    && thn != [] && (els.Some? ==> els.value != [])
    && code == [CIf(test, thn[0], if els.Some? then Some(els.value[0]) else None)]
               + (thn[1..] + if els.Some? then els.value[1..] else [])
  }

  /** An `else` that is put behind the text of the branch belongs to the right `if` exactly behind one
      closed statement, and with a statement of its own. */
  lemma OwnBranchesIff(test: CTest, thn: seq<CStmt>, els: Option<seq<CStmt>>)
    ensures OwnBranches(IfCode(test, thn, els), test, thn, els) <==>
            thn != [] && (els.Some? ==> |thn| == 1 && !Open(thn[0]) && !Hole(thn[0]) && els.value != [])
  {
    if els.None? {
      if thn != [] {
        assert thn[1..] + [] == thn[1..];
      }
    } else if |thn| == 1 {
      SingleBranch(test, thn[0], els.value);
      assert thn == [thn[0]];
    } else {
      FirstStaysAlone(test, thn, els.value);
    }
  }

  lemma FirstStaysAlone(test: CTest, thn: seq<CStmt>, els: seq<CStmt>)
    requires |thn| != 1
    ensures IfCode(test, thn, Some(els))[0] == CIf(test, First(thn), None)
  {
    var head := [CIf(test, First(thn), None)] + Rest(thn);
    if Open(head[|head| - 1]) {
      assert |head| > 1;
    }
  }

  lemma SingleCode(test: CTest, c: CStmt, els: seq<CStmt>)
    ensures IfCode(test, [c], Some(els)) ==
            if Hole(c) then [CIf(test, c, None), CStray] + els
            else if Open(c) then [CIf(test, Attach(c, First(els)), None)] + Rest(els)
            else [CIf(test, c, Some(First(els)))] + Rest(els)
  {
    var head := CIf(test, c, None);
    BehindIf(test, c, First(els));
    hide Attach, Open, Hole;
    assert First([c]) == c && Rest([c]) == [] && [head] + [] == [head];
    assert [head][..0] == [] && [head] + [CStray] == [head, CStray];
  }

  lemma BehindIf(test: CTest, c: CStmt, e: CStmt)
    ensures var head := CIf(test, c, None);
            && Open(head) == !Hole(c)
            && (!Hole(c) ==> Attach(head, e) == if Open(c) then CIf(test, Attach(c, e), None) else CIf(test, c, Some(e)))
  {
  }

  lemma SingleBranch(test: CTest, c: CStmt, els: seq<CStmt>)
    ensures OwnBranches(IfCode(test, [c], Some(els)), test, [c], Some(els)) <==> !Open(c) && !Hole(c) && els != []
  {
    SingleCode(test, c, els);
    var code, thn := IfCode(test, [c], Some(els)), [c];
    hide IfCode, Attach, Open, Hole;
    assert thn[1..] == [];
    if OwnBranches(code, test, thn, Some(els)) {
      assert code[0] == CIf(test, c, Some(els[0]));
    }
    if !Open(c) && !Hole(c) && els != [] {
      assert [] + els[1..] == els[1..];
    }
  }

  /** In terms of the source, for branches that are tidy by themselves. */
  lemma {:induction false} ElseBelongs(p: Program, s: Stmt, flow: Flow, cur: Table, g: Gen)
    requires s.If? && s.cond.folded.Unknown? && Tidy(p, s.thn) && TidyElse(p, s.els)
    ensures Emit(p, s, flow, cur, g).code ==
            IfCode(OnStore(s.cond.test), ThenText(p, s, flow, g), ElseText(p, s, flow, cur, g))
    ensures var thn, els := ThenText(p, s, flow, g), ElseText(p, s, flow, cur, g);
            OwnBranches(Emit(p, s, flow, cur, g).code, OnStore(s.cond.test), thn, els) <==> FitsIf(p, s.thn, s.els)
    decreases s, 0
  {
    hide Emit;
    EmitAssembled(p, s, flow, cur, g);
    var ps := Parts(s, cur);
    EmitShape(p, s.thn, flow, s.thenTable, g);
    if s.els.NoElse? {
      EmitOne(p, ps[0], s, flow, g);
    } else {
      var d := ElseParts(s.els, cur, true)[0];
      assert ps == [ps[0]] + [d];
      EmitTwo(p, ps[0], d, s, flow, g);
      EmitShape(p, d.stmt, flow, d.table, Emit(p, s.thn, flow, s.thenTable, g).gen);
    }
    OwnBranchesIff(OnStore(s.cond.test), ThenText(p, s, flow, g), ElseText(p, s, flow, cur, g));
  }

  /** An `if` with branches that fit has its form. */
  lemma {:induction false} TestedIfShape(p: Program, s: Stmt, flow: Flow, cur: Table, g: Gen)
    requires s.If? && s.cond.folded.Unknown? && Tidy(p, s)
    requires OwnBranches(Emit(p, s, flow, cur, g).code, OnStore(s.cond.test),
                         ThenText(p, s, flow, g), ElseText(p, s, flow, cur, g))
    ensures Shaped(p, s, flow, Emit(p, s, flow, cur, g).code)
    decreases s, 0
  {
    hide Emit;
    var thn, els, code := ThenText(p, s, flow, g), ElseText(p, s, flow, cur, g), Emit(p, s, flow, cur, g).code;
    IfForm(p, s);
    EmitShape(p, s.thn, flow, s.thenTable, g);
    hide Tidy, FormOf, Closed;
    if !s.els.NoElse? {
      var d := ElseParts(s.els, cur, true)[0];
      EmitShape(p, d.stmt, flow, d.table, Emit(p, s.thn, flow, s.thenTable, g).gen);
      assert ElseForm(p, s.els) == FormOf(p, d.stmt) && ElseClosed(s.els) == Closed(d.stmt);
    }
    hide ElseText, ThenText, ElseForm;
    OwnForm(code, OnStore(s.cond.test), thn, els, flow, FormOf(p, s), Closed(s));
  }

  /** An `if` has the form of its last branch. */
  lemma OwnForm(code: seq<CStmt>, test: CTest, thn: seq<CStmt>, els: Option<seq<CStmt>>, flow: Flow, form: Form, closed: bool)
    requires OwnBranches(code, test, thn, els) && (form.Single? || form.Tested?)
    requires els.None? ==> !closed && exists c :: HasForm(form, c, flow, thn)
    requires els.Some? ==> HasForm(Single, true, flow, thn) && HasForm(form, closed, flow, els.value)
    ensures HasForm(form, closed, flow, code)
  {
    if els.None? {
      assert code[1..] == thn[1..] && Hole(code[0]) == Hole(thn[0]) && Open(code[0]);
    } else {
      assert Hole(code[0]) == Hole(els.value[0]) && Open(code[0]) == Open(els.value[0]);
      assert thn[1..] == [] && code[1..] == els.value[1..];
    }
  }

  lemma IfForm(p: Program, s: Stmt)
    requires s.If? && s.cond.folded.Unknown? && Tidy(p, s)
    ensures FitsIf(p, s.thn, s.els) && Closed(s) == ElseClosed(s.els) && (s.els.NoElse? ==> !Closed(s))
    ensures FormOf(p, s) == if s.els.NoElse? then FormOf(p, s.thn) else ElseForm(p, s.els)
  {
  }

  /** Which statement a head without one takes: the next of the list stands where an empty branch or body should. */
  predicate TakesNext(code: seq<CStmt>) {
    code != [] && Hole(code[|code| - 1])
  }

  lemma {:induction false} NextIsBranchIff(p: Program, s: Stmt, flow: Flow, cur: Table, g: Gen)
    requires s.If? && s.cond.folded.Unknown? && Tidy(p, s.thn) && TidyElse(p, s.els)
    ensures TakesNext(Emit(p, s, flow, cur, g).code) <==>
            if s.els.NoElse? then FormOf(p, s.thn).Nothing?
            else ElseForm(p, s.els).Nothing? && !FormOf(p, s.thn).Nothing?
  {
    hide Emit, FormOf, Closed;
    ElseBelongs(p, s, flow, cur, g);
    EmitShape(p, s.thn, flow, s.thenTable, g);
    if !s.els.NoElse? {
      var d := ElseParts(s.els, cur, true)[0];
      EmitShape(p, d.stmt, flow, d.table, Emit(p, s.thn, flow, s.thenTable, g).gen);
      assert ElseForm(p, s.els) == FormOf(p, d.stmt);
    }
    HoleOfIf(OnStore(s.cond.test), ThenText(p, s, flow, g), ElseText(p, s, flow, cur, g));
  }

  /** At the end of an `if` a statement is missing where the last branch has no text, and is attached. */
  lemma HoleOfIf(test: CTest, thn: seq<CStmt>, els: Option<seq<CStmt>>)
    requires NoHoles(thn) && (els.Some? ==> NoHoles(els.value)) && (|thn| > 1 ==> Open(thn[|thn| - 1]))
    ensures TakesNext(IfCode(test, thn, els)) <==> if els.None? then thn == [] else els.value == [] && thn != []
  {
    var head, code := [CIf(test, First(thn), None)] + Rest(thn), IfCode(test, thn, els);
    var last := head[|head| - 1];
    assert Hole(head[0]) == Hole(First(thn)) && (|thn| > 1 ==> last == thn[|thn| - 1]);
    if els.Some? {
      if Open(last) {
        AttachedHole(last, First(els.value));
        assert code == head[..|head| - 1] + [Attach(last, First(els.value))] + Rest(els.value);
        assert els.value == [] ==> code[|code| - 1] == Attach(last, CMissing);
        assert els.value != [] && Rest(els.value) == [] ==> code[|code| - 1] == Attach(last, els.value[0]);
      } else {
        assert code == head + [CStray] + els.value;
      }
    }
  }

  lemma AttachedHole(c: CStmt, e: CStmt)
    requires Open(c)
    ensures Hole(Attach(c, e)) <==> Hole(e)
  {
  }

  lemma {:induction false} NextIsBodyIff(p: Program, s: Stmt, flow: Flow, cur: Table, g: Gen)
    requires s.While? || s.For?
    requires Tidy(p, Parts(s, cur)[0].stmt)
    ensures TakesNext(Emit(p, s, flow, cur, g).code) <==> FormOf(p, Parts(s, cur)[0].stmt).Nothing?
    ensures |Emit(p, s, flow, cur, g).code| == 1 <==> !FormOf(p, Parts(s, cur)[0].stmt).Tested?
  {
    hide Emit, Tidy, FormOf;
    EmitAssembled(p, s, flow, cur, g);
    var x := Parts(s, cur)[0];
    EmitOne(p, x, s, flow, g);
    EmitShape(p, x.stmt, flow, x.table, g);
    var body, code := Emit(p, x.stmt, flow, x.table, g).code, Emit(p, s, flow, cur, g).code;
    assert code[1..] == Rest(body) && Hole(code[0]) == Hole(First(body));
  }

  // ----- statement lists -----

  function ListCode(p: Program, ss: seq<Stmt>, whole: Stmt, flow: Flow, cur: Table, g: Gen): seq<CStmt>
    requires forall x <- ss :: x < whole
  {
    Concat(EmitParts(p, ListParts(ss, cur), whole, flow, g).0)
  }

  function ListGen(p: Program, ss: seq<Stmt>, whole: Stmt, flow: Flow, cur: Table, g: Gen): Gen
    requires forall x <- ss :: x < whole
  {
    EmitParts(p, ListParts(ss, cur), whole, flow, g).1
  }

  lemma ListStepCode(p: Program, ss: seq<Stmt>, whole: Stmt, flow: Flow, cur: Table, g: Gen)
    requires ss != [] && forall x <- ss :: x < whole
    ensures forall x <- ss[1..] :: x < whole
    ensures var e := Emit(p, ss[0], flow, cur, g);
            && ListCode(p, ss, whole, flow, cur, g) == e.code + ListCode(p, ss[1..], whole, flow, cur, e.gen)
            && ListGen(p, ss, whole, flow, cur, g) == ListGen(p, ss[1..], whole, flow, cur, e.gen)
  {
    hide Emit;
    var ps, e := ListParts(ss, cur), Emit(p, ss[0], flow, cur, g);
    assert ps[1..] == ListParts(ss[1..], cur);
    var r := EmitParts(p, ps, whole, flow, g).0;
    assert r[0] == e.code && r[1..] == EmitParts(p, ps[1..], whole, flow, e.gen).0;
  }

  lemma EmptyList(p: Program, whole: Stmt, flow: Flow, cur: Table, g: Gen)
    ensures ListCode(p, [], whole, flow, cur, g) == [] && ListGen(p, [], whole, flow, cur, g) == g
  {
    assert ListParts([], cur) == [];
  }

  lemma {:induction false} ItemHoles(p: Program, s: Stmt, flow: Flow, cur: Table, g: Gen)
    requires TidyItem(p, s)
    ensures NoHoles(Emit(p, s, flow, cur, g).code)
  {
    if s.Case? || s.Default? {
      var body := Parts(s, cur)[0].stmt;
      EmitOne(p, Part(body, cur), s, flow, g);
      ItemHoles(p, body, flow, cur, g);
    } else {
      EmitShape(p, s, flow, cur, g);
    }
  }

  /** Nothing is joined in the text of a tidy list. */
  lemma {:induction false} ListJoined(p: Program, ss: seq<Stmt>, whole: Stmt, flow: Flow, cur: Table, g: Gen)
    requires forall x <- ss :: x < whole && TidyItem(p, x)
    ensures NoHoles(ListCode(p, ss, whole, flow, cur, g))
    ensures Joined(ListCode(p, ss, whole, flow, cur, g)) == ListCode(p, ss, whole, flow, cur, g)
  {
    hide Emit, ListCode, ListGen;
    if ss == [] {
      EmptyList(p, whole, flow, cur, g);
    } else {
      ListStepCode(p, ss, whole, flow, cur, g);
      assert ss[0] in ss;
      ItemHoles(p, ss[0], flow, cur, g);
      ListJoined(p, ss[1..], whole, flow, cur, Emit(p, ss[0], flow, cur, g).gen);
    }
    NothingJoined(ListCode(p, ss, whole, flow, cur, g));
  }
}
