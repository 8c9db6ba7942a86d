/** Statements of DML methods after name resolution, and what they mean. */
module Dml {
  import opened Common

  /** Everything a statement may read or write; nothing about it matters here. */
  type Store(!new)

  /** A symbol table; the parser gives one to every method, branch, loop body and try body. */
  type Table = nat

  type Name = string

  /** What the constant folder says about a condition. */
  datatype Folding = Unknown | IsTrue | IsFalse

  datatype Cond = Cond(test: Store -> bool, folded: Folding)

  datatype Stmt =
    | Do(act: Store -> Store)
    | Block(stmts: seq<Stmt>)
    | If(cond: Cond, thenTable: Table, thn: Stmt, els: Else)
    | While(guard: Store -> bool, whileTable: Table, whileBody: Stmt)
    | For(init: Store -> Store, test: Store -> bool, update: Store -> Store, forTable: Table, forBody: Stmt)
    | Switch(selector: Store -> int, cases: seq<Stmt>)
    | Case(value: int, caseBody: Stmt)
    | Default(defaultBody: Stmt)
    | Labeled(labeledBody: Stmt)
    | Call(callee: Name, enter: Store -> Store, leave: (Store, Store) -> Store)
    | Inline(bind: Store -> Store, methodTable: Table, inlined: Stmt, copyOut: Store -> Store)
    | Try(tryTable: Table, tryBody: Stmt, catchBody: Stmt)
    | Throw
    | Return
    | Break
    | Continue

  datatype Else = NoElse | ElseIf(elseIf: Stmt) | ElseBlock(elseTable: Table, elseBody: Stmt)

  datatype Method = Method(table: Table, body: Stmt)

  type Program = map<Name, Method>

  /** A block without statements, for which neither a call nor an inline emits code. */
  predicate IsEmpty(s: Stmt) {
    s.Block? && s.stmts == []
  }

  const IDENTITY: Store -> Store := st => st

  /** How a statement ends. */
  datatype Outcome = Normal | Thrown | Returned | Broke | Continued

  datatype Run = Run(outcome: Outcome, store: Store)

  /** Runs a statement. Each loop iteration, method entry and caught exception takes one unit of
      fuel from what is nested in it; None means that the fuel did not suffice. */
  function Exec(p: Program, s: Stmt, st: Store, fuel: nat): Option<Run>
    decreases fuel, s, 1
  {
    match s
    case Do(act) => Some(Run(Normal, act(st)))
    case Block(ss) => ExecSeq(p, ss, st, fuel)
    case If(c, _, thn, els) =>
      if c.test(st) then Exec(p, thn, st, fuel) else ExecElse(p, els, st, fuel)
    case While(g, _, body) => ExecLoop(p, g, IDENTITY, body, s, st, fuel)
    case For(init, g, update, _, body) => ExecLoop(p, g, update, body, s, init(st), fuel)
    case Switch(sel, cases) =>
      var k := FindCase(cases, sel(st));
      AfterLoop(ExecSeq(p, cases[k..], st, fuel))
    case Case(_, body) => Exec(p, body, st, fuel)
    case Default(body) => Exec(p, body, st, fuel)
    case Labeled(body) => Exec(p, body, st, fuel)
    case Call(m, enter, leave) =>
      if m !in p then None
      else if IsEmpty(p[m].body) then Some(Run(Normal, leave(st, enter(st))))
      else if fuel == 0 then None
      else
        (match Finish(Exec(p, p[m].body, enter(st), fuel - 1))
         case None => None
         case Some(r) => Some(Run(if r.0 then Thrown else Normal, leave(st, r.1))))
    case Inline(bind, _, body, copyOut) =>
      (match Exec(p, body, bind(st), fuel)
       case None => None
       case Some(r) =>
         if r.outcome == Normal || r.outcome == Returned
         then Some(Run(Normal, copyOut(r.store))) else Some(r))
    case Try(_, body, handler) =>
      (match Exec(p, body, st, fuel)
       case None => None
       case Some(r) =>
         if r.outcome != Thrown then Some(r)
         else if fuel == 0 then None else Exec(p, handler, r.store, fuel - 1))
    case Throw => Some(Run(Thrown, st))
    case Return => Some(Run(Returned, st))
    case Break => Some(Run(Broke, st))
    case Continue => Some(Run(Continued, st))
  }

  function ExecSeq(p: Program, ss: seq<Stmt>, st: Store, fuel: nat): Option<Run>
    decreases fuel, ss, 0
  {
    if ss == [] then Some(Run(Normal, st))
    else
      match Exec(p, ss[0], st, fuel)
      case None => None
      case Some(r) => if r.outcome == Normal then ExecSeq(p, ss[1..], r.store, fuel) else Some(r)
  }

  function ExecElse(p: Program, els: Else, st: Store, fuel: nat): Option<Run>
    decreases fuel, els, 0
  {
    match els
    case NoElse => Some(Run(Normal, st))
    case ElseIf(s) => Exec(p, s, st, fuel)
    case ElseBlock(_, s) => Exec(p, s, st, fuel)
  }

  /** The loop `whole`, whose init part has run. */
  function ExecLoop(p: Program, g: Store -> bool, update: Store -> Store, body: Stmt, whole: Stmt,
                          st: Store, fuel: nat): Option<Run>
    requires body < whole
    decreases fuel, whole, 0
  {
    if !g(st) then Some(Run(Normal, st))
    else
      var r := Exec(p, body, st, fuel);
      if r.Some? && (r.value.outcome == Normal || r.value.outcome == Continued) then
        if fuel == 0 then None
        else ExecLoop(p, g, update, body, whole, update(r.value.store), fuel - 1)
      else AfterLoop(r)
  }

  function AfterLoop(r: Option<Run>): Option<Run> {
    if r.Some? && r.value.outcome == Broke then Some(r.value.(outcome := Normal)) else r
  }

  /** Runs a method; the flag says whether an exception leaves it. An empty body takes no fuel. */
  function ExecMethod(p: Program, m: Name, st: Store, fuel: nat): Option<(bool, Store)> {
    if m !in p then None
    else if IsEmpty(p[m].body) then Some((false, st))
    else if fuel == 0 then None
    else Finish(Exec(p, p[m].body, st, fuel - 1))
  }

  /** The result of a method body; a break or continue outside of every loop has no meaning. */
  function Finish(r: Option<Run>): Option<(bool, Store)> {
    if r.None? || r.value.outcome == Broke || r.value.outcome == Continued then None
    else Some((r.value.outcome == Thrown, r.value.store))
  }

  /** The labels of a switch. */
  datatype Arm = CaseOf(value: int) | DefaultArm

  /** Whether a statement of a switch block carries a label. */
  predicate HasArm(s: Stmt, a: Arm) {
    match s
    case Case(k, body) => a == CaseOf(k) || HasArm(body, a)
    case Default(body) => a == DefaultArm || HasArm(body, a)
    case _ => false
  }

  function FirstArm(ss: seq<Stmt>, a: Arm): (k: nat)
    ensures k <= |ss|
  {
    if ss == [] || HasArm(ss[0], a) then 0 else 1 + FirstArm(ss[1..], a)
  }

  /** Where a switch enters its block: the matching case, else the default, else the end. */
  function FindCase(ss: seq<Stmt>, v: int): (k: nat)
    ensures k <= |ss|
  {
    var k := FirstArm(ss, CaseOf(v));
    if k < |ss| then k else FirstArm(ss, DefaultArm)
  }
}
