/** Where the flag of a method may be read without having been written: behind a call without braces
    that was not made. In a handler that shares the symbol table of the method the flag is still set. */
module StaleFlags {
  import opened Dml
  import opened FlowControl
  import opened Emission
  import opened Scopes
  import opened TidyBodies

  /** A statement that ends normally only after a call that succeeded, which clears the flag. */
  predicate Resets(p: Program, s: Stmt)
    decreases s, 1
  {
    match s
    case Block(ss) => SomeResets(p, ss)
    case If(c, _, thn, els) =>
      (c.folded.IsFalse? || Resets(p, thn)) && (c.folded.IsTrue? || ElseResets(p, els))
    case Labeled(body) => Resets(p, body)
    case Inline(_, _, body, _) => Resets(p, body)
    case Call(m, _, _) => !EmptyMethod(p, m)
    case Throw => true
    case Return => true
    case Break => true
    case Continue => true
    case _ => false
  }

  predicate ElseResets(p: Program, els: Else)
    decreases els, 0
  {
    match els
    case NoElse => false
    case ElseIf(s) => Resets(p, s)
    case ElseBlock(_, s) => Resets(p, s)
  }

  predicate SomeResets(p: Program, ss: seq<Stmt>)
    decreases ss, 0
  {
    ss != [] && (Resets(p, ss[0]) || SomeResets(p, ss[1..]))
  }

  /** No flag is tested that may be left from before: `exec` is the table of the flag of the flow
      context, and `clean` says that this flag is known not to be set. */
  predicate Steady(p: Program, s: Stmt, exec: Table, cur: Table, clean: bool)
    decreases s, 2, 0, 0
  {
    match s
    case Try(_, body, handler) =>
      && Steady(p, body, cur, TryBodyTable(s, cur), true)
      && Steady(p, handler, exec, cur, clean && exec != cur)
      && (FormOf(p, handler).Tested? ==> clean || exec == cur)
    case Block(_) => ListSteady(p, Parts(s, cur), s, exec, clean)
    case Switch(_, _) => ArmsSteady(p, Parts(s, cur), s, exec, clean)
    case _ => PartsSteady(p, Parts(s, cur), s, exec, clean) && (s.If? && s.cond.folded.Unknown? ==> TestSteady(p, s, clean))
  }

  /** The test behind an `if` is also reached by the branch that makes no call. */
  predicate TestSteady(p: Program, s: Stmt, clean: bool)
    requires s.If?
    decreases s, 1, 0, 0
  {
    && (s.els.NoElse? && FormOf(p, s.thn).Tested? ==> clean)
    && (ElseForm(p, s.els).Tested? ==> clean || Resets(p, s.thn))
  }

  predicate PartsSteady(p: Program, ps: seq<Part>, whole: Stmt, exec: Table, clean: bool)
    requires forall x <- ps :: x.stmt < whole
    decreases whole, 1, |ps|, 0
  {
    ps != [] ==>
      Steady(p, ps[0].stmt, exec, ps[0].table, clean) && PartsSteady(p, ps[1..], whole, exec, clean)
  }

  predicate ListSteady(p: Program, ps: seq<Part>, whole: Stmt, exec: Table, clean: bool)
    requires forall x <- ps :: x.stmt < whole
    decreases whole, 1, |ps|, 0
  {
    ps != [] ==>
      && Steady(p, ps[0].stmt, exec, ps[0].table, clean)
      && ListSteady(p, ps[1..], whole, exec, clean || Resets(p, ps[0].stmt))
  }

  /** Wherever a switch enters its list. */
  predicate ArmsSteady(p: Program, ps: seq<Part>, whole: Stmt, exec: Table, clean: bool)
    requires forall x <- ps :: x.stmt < whole
    decreases whole, 1, |ps|, 1
  {
    ps != [] ==>
      && (ps[0].stmt.Case? || ps[0].stmt.Default? ==> ListSteady(p, ps, whole, exec, clean))
      && ArmsSteady(p, ps[1..], whole, exec, clean)
  }

  /** A statement with a test behind it uses the flag that is tested. */
  lemma {:induction false} TestedNeeds(p: Program, s: Stmt, cur: Table, x: Table)
    requires FormOf(p, s).Tested?
    ensures Needs(p, s, cur, x)
    decreases s, 1
  {
    match s
    case Labeled(body) => TestedNeeds(p, body, cur, x);
    case If(c, t, thn, els) =>
      var ps := Parts(s, cur);
      if c.folded.IsTrue? || (c.folded.Unknown? && els.NoElse?) {
        TestedNeeds(p, thn, t, x);
        AnyPartNeeds(p, ps, s, x, 0);
      } else {
        var last := ps[|ps| - 1];
        assert ElseForm(p, els) == FormOf(p, last.stmt);
        TestedNeeds(p, last.stmt, last.table, x);
        AnyPartNeeds(p, ps, s, x, |ps| - 1);
      }
    case _ =>
  }

  lemma TestedBranchNeeds(p: Program, s: Stmt, cur: Table, x: Table)
    requires s.If? && s.cond.folded.Unknown? && (FormOf(p, s.thn).Tested? || ElseForm(p, s.els).Tested?)
    ensures Needs(p, s, cur, x)
  {
    var ps := Parts(s, cur);
    if FormOf(p, s.thn).Tested? {
      TestedNeeds(p, s.thn, s.thenTable, x);
      AnyPartNeeds(p, ps, s, x, 0);
    } else {
      var last := ps[|ps| - 1];
      assert ElseForm(p, s.els) == FormOf(p, last.stmt);
      TestedNeeds(p, last.stmt, last.table, x);
      AnyPartNeeds(p, ps, s, x, |ps| - 1);
    }
  }

  lemma NotTested(p: Program, s: Stmt)
    requires !MayCall(p, s)
    ensures !FormOf(p, s).Tested?
    ensures s.If? && s.cond.folded.Unknown? ==> !FormOf(p, s.thn).Tested? && !ElseForm(p, s.els).Tested?
  {
    NeedsIsMayCall(p, s, 0, 0);
    if FormOf(p, s).Tested? {
      TestedNeeds(p, s, 0, 0);
    }
    if s.If? && s.cond.folded.Unknown? && (FormOf(p, s.thn).Tested? || ElseForm(p, s.els).Tested?) {
      TestedBranchNeeds(p, s, 0, 0);
    }
  }

  // ----- what makes no call does not read the flag around it -----

  lemma {:induction false} QuietIsSteady(p: Program, s: Stmt, x: Table, y: Table, cur: Table, a: bool, b: bool)
    requires !MayCall(p, s) && Steady(p, s, x, cur, a)
    ensures Steady(p, s, y, cur, b)
    decreases s, 2, 0, 0
  {
    match s
    case Try(_, body, handler) =>
      QuietIsSteady(p, handler, x, y, cur, a && x != cur, b && y != cur);
      NotTested(p, handler);
    case Block(_) =>
      CallingParts(p, s, cur);
      QuietListIsSteady(p, Parts(s, cur), s, x, y, a, b);
    case Switch(_, _) =>
      CallingParts(p, s, cur);
      QuietArmsAreSteady(p, Parts(s, cur), s, x, y, a, b);
    case Call(_, _, _) =>
    case _ =>
      CallingParts(p, s, cur);
      QuietPartsAreSteady(p, Parts(s, cur), s, x, y, a, b);
      NotTested(p, s);
  }

  lemma {:induction false} QuietPartsAreSteady(p: Program, ps: seq<Part>, whole: Stmt, x: Table, y: Table, a: bool, b: bool)
    requires (forall z <- ps :: z.stmt < whole && !MayCall(p, z.stmt)) && PartsSteady(p, ps, whole, x, a)
    ensures PartsSteady(p, ps, whole, y, b)
    decreases whole, 1, |ps|, 0
  {
    if ps != [] {
      QuietIsSteady(p, ps[0].stmt, x, y, ps[0].table, a, b);
      QuietPartsAreSteady(p, ps[1..], whole, x, y, a, b);
    }
  }

  lemma {:induction false} QuietListIsSteady(p: Program, ps: seq<Part>, whole: Stmt, x: Table, y: Table, a: bool, b: bool)
    requires (forall z <- ps :: z.stmt < whole && !MayCall(p, z.stmt)) && ListSteady(p, ps, whole, x, a)
    ensures ListSteady(p, ps, whole, y, b)
    decreases whole, 1, |ps|, 0
  {
    if ps != [] {
      var first := ps[0].stmt;
      QuietIsSteady(p, first, x, y, ps[0].table, a, b);
      QuietListIsSteady(p, ps[1..], whole, x, y, a || Resets(p, first), b || Resets(p, first));
    }
  }

  lemma {:induction false} QuietArmsAreSteady(p: Program, ps: seq<Part>, whole: Stmt, x: Table, y: Table, a: bool, b: bool)
    requires (forall z <- ps :: z.stmt < whole && !MayCall(p, z.stmt)) && ArmsSteady(p, ps, whole, x, a)
    ensures ArmsSteady(p, ps, whole, y, b)
    decreases whole, 1, |ps|, 1
  {
    if ps != [] {
      if ps[0].stmt.Case? || ps[0].stmt.Default? {
        QuietListIsSteady(p, ps, whole, x, y, a, b);
      }
      QuietArmsAreSteady(p, ps[1..], whole, x, y, a, b);
    }
  }
}
