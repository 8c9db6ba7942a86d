/** The C text of a statement, as a function of the generator's state. */
module Emission {
  import opened Common
  import opened Dml
  import opened CTarget
  import opened FlowControl

  /** The flow context: the table of the `exec` symbol, and of the `throw` symbol inside of a try. */
  datatype Flow = Flow(exec: Table, throwing: Option<Table>)

  /** What emission changes for good: the names of the throw symbols and the next unused number. */
  datatype Gen = Gen(aliases: map<Table, Label>, next: Label)

  function Alias(g: Gen, t: Table): Label {
    if t in g.aliases then g.aliases[t] else 0
  }

  datatype Emitted = Emitted(code: seq<CStmt>, gen: Gen)

  // ----- text of single constructs -----

  /** A statement that ends in an `if`, `else` or loop head. */
  predicate Hole(c: CStmt) {
    match c
    case CMissing => true
    case CIf(_, thn, None) => Hole(thn)
    case CIf(_, _, Some(e)) => Hole(e)
    case CLoop(_, _, _, body) => Hole(body)
    case _ => false
  }

  /** The statement behind such a head becomes its branch or body. */
  function Fill(c: CStmt, e: CStmt): CStmt {
    match c
    case CMissing => e
    case CIf(t, thn, None) => CIf(t, Fill(thn, e), None)
    case CIf(t, thn, Some(x)) => CIf(t, thn, Some(Fill(x, e)))
    case CLoop(i, g, u, body) => CLoop(i, g, u, Fill(body, e))
    case _ => c
  }

  /** A list of statements as C reads it. A head in front of a label is given no meaning. */
  function Joined(items: seq<CStmt>): (r: seq<CStmt>)
    ensures r == [] <==> items == []
  {
    if items == [] then []
    else
      var rest := Joined(items[1..]);
      if rest == [] || !Hole(items[0]) then [items[0]] + rest
      else if rest[0].CCase? || rest[0].CDefault? || rest[0].CLabel? then [items[0], CStray] + rest
      else [Fill(items[0], rest[0])] + rest[1..]
  }

  /** A statement that a following `else` would join. */
  predicate Open(c: CStmt) {
    match c
    case CIf(_, thn, None) => !Hole(thn)
    case CIf(_, _, Some(e)) => Open(e)
    case CLoop(_, _, _, body) => Open(body)
    case _ => false
  }

  /** An `else` belongs to the innermost `if` that lacks one. */
  function Attach(c: CStmt, e: CStmt): CStmt
    requires Open(c)
  {
    match c
    case CIf(t, thn, None) => if Open(thn) then CIf(t, Attach(thn, e), None) else CIf(t, thn, Some(e))
    case CIf(t, thn, Some(x)) => CIf(t, thn, Some(Attach(x, e)))
    case CLoop(i, g, u, body) => CLoop(i, g, u, Attach(body, e))
  }

  /** The statement that a head takes from the text behind it. */
  function First(code: seq<CStmt>): CStmt {
    if code == [] then CMissing else code[0]
  }

  function Rest(code: seq<CStmt>): seq<CStmt> {
    if code == [] then [] else code[1..]
  }

  /** The text `items else es` read as C. */
  function WithElse(items: seq<CStmt>, es: seq<CStmt>): seq<CStmt> {
    if items != [] && Open(items[|items| - 1])
    then items[..|items| - 1] + [Attach(items[|items| - 1], First(es))] + Rest(es)
    else items + [CStray] + es
  }

  /** The text `if (test) thn`, with or without `else els`, where the parts may be any number of statements. */
  function IfCode(test: CTest, thn: seq<CStmt>, els: Option<seq<CStmt>>): seq<CStmt> {
    var head := [CIf(test, First(thn), None)] + Rest(thn);
    if els.Some? then WithElse(head, els.value) else head
  }

  function LoopCode(init: Store -> Store, g: Store -> bool, update: Store -> Store, body: seq<CStmt>): seq<CStmt> {
    [CLoop(init, g, update, First(body))] + Rest(body)
  }

  /** The jump to the handler in force, or out of the function. */
  function ExitCode(flow: Flow, g: Gen): CStmt {
    if flow.throwing.Some? then CGoto(Alias(g, flow.throwing.value)) else CReturn(true)
  }

  function ThrowCode(flow: Flow, g: Gen): seq<CStmt> {
    if flow.throwing.Some? then [CBlock(None, [CSetFlag(flow.exec), ExitCode(flow, g)])] else [ExitCode(flow, g)]
  }

  predicate EmptyMethod(p: Program, m: Name) {
    m in p && IsEmpty(p[m].body)
  }

  function CallCode(p: Program, s: Stmt, flow: Flow, g: Gen): seq<CStmt>
    requires s.Call?
  {
    if EmptyMethod(p, s.callee) then []
    else [CCall(flow.exec, s.callee, s.enter, s.leave),
          CIf(OnFlag(flow.exec), CBlock(None, [ExitCode(flow, g)]), None)]
  }

  function TryCode(flag: Flag, body: seq<CStmt>, l: Label, handler: seq<CStmt>): seq<CStmt> {
    [CBlock(Some(flag), Joined(body) + ([CLabel(l)] + IfCode(OnFlag(flag), handler, None)))]
  }

  // ----- statements -----

  /** A part of a statement and the symbol table that is current while it is translated. */
  datatype Part = Part(stmt: Stmt, table: Table)

  function ElseParts(els: Else, cur: Table, chained: bool): (ps: seq<Part>)
    ensures |ps| == if els.NoElse? then 0 else 1
    ensures forall x <- ps :: x.stmt < els
  {
    match els
    case NoElse => []
    case ElseIf(e) => [Part(e, if chained && e.If? then e.thenTable else cur)]
    case ElseBlock(t, e) => [Part(e, t)]
  }

  function ListParts(ss: seq<Stmt>, cur: Table): (ps: seq<Part>)
    ensures |ps| == |ss|
    ensures forall i | 0 <= i < |ps| :: ps[i] == Part(ss[i], cur)
    ensures forall x <- ps :: x.stmt in ss
  {
    seq(|ss|, i requires 0 <= i < |ss| => Part(ss[i], cur))
  }

  /** The number of parts that a statement emits. A condition that folds leaves only the branch it selects. */
  function Arity(s: Stmt): nat {
    match s
    case Block(ss) => |ss|
    case Switch(_, ss) => |ss|
    case If(c, _, _, els) =>
      var alternatives := if els.NoElse? then 0 else 1;
      (match c.folded
       case IsTrue => 1
       case IsFalse => alternatives
       case Unknown => 1 + alternatives)
    case Inline(_, _, body, _) => if IsEmpty(body) then 0 else 1
    case While(_, _, _) => 1
    case For(_, _, _, _, _) => 1
    case Case(_, _) => 1
    case Default(_) => 1
    case Labeled(_) => 1
    case _ => 0
  }

  /** The parts that a statement other than try emits, in order. */
  function Parts(s: Stmt, cur: Table): (ps: seq<Part>)
    ensures |ps| == Arity(s)
    ensures forall x <- ps :: x.stmt < s
  {
    match s
    case Block(ss) => ListParts(ss, cur)
    case Switch(_, ss) => ListParts(ss, cur)
    case If(c, t, thn, els) =>
      (match c.folded
       case IsTrue => [Part(thn, t)]
       case IsFalse => ElseParts(els, cur, false)
       case Unknown => [Part(thn, t)] + ElseParts(els, cur, true))
    case While(_, t, body) => [Part(body, if body.Block? then t else cur)]
    case For(_, _, _, t, body) => [Part(body, t)]
    case Case(_, body) => [Part(body, cur)]
    case Default(body) => [Part(body, cur)]
    case Labeled(body) => [Part(body, cur)]
    case Inline(_, t, body, _) => if IsEmpty(body) then [] else [Part(body, t)]
    case _ => []
  }

  function Concat(cs: seq<seq<CStmt>>): seq<CStmt> {
    if cs == [] then [] else cs[0] + Concat(cs[1..])
  }

  /** The text of a statement other than try, given the texts of its parts. */
  function Assemble(p: Program, s: Stmt, flow: Flow, g: Gen, cs: seq<seq<CStmt>>): seq<CStmt>
    requires !s.Try? && |cs| == Arity(s)
  {
    match s
    case Do(act) => [CDo(act)]
    case Block(_) => [CBlock(None, Joined(Concat(cs)))]
    case If(c, _, _, els) =>
      if !c.folded.Unknown? then Concat(cs)
      else IfCode(OnStore(c.test), cs[0], if els.NoElse? then None else Some(cs[1]))
    case While(guard, _, _) => LoopCode(IDENTITY, guard, IDENTITY, cs[0])
    case For(init, test, update, _, _) => LoopCode(init, test, update, cs[0])
    case Switch(sel, _) => [CSwitch(sel, Joined(Concat(cs)))]
    case Case(k, _) => [CCase(k)] + cs[0]
    case Default(_) => [CDefault] + cs[0]
    case Labeled(_) => cs[0]
    case Call(_, _, _) => CallCode(p, s, flow, g)
    case Inline(bind, _, _, copyOut) =>
      if cs == [] then [] else [CBlock(None, [CDo(bind)] + cs[0] + [CDo(copyOut)])]
    case Throw => ThrowCode(flow, g)
    case Return => [CReturn(false)]
    case Break => [CBreak]
    case Continue => [CContinue]
  }

  function Emit(p: Program, s: Stmt, flow: Flow, cur: Table, g: Gen): Emitted
    decreases s, 1, 0
  {
    if s.Try? then
      // the throw symbol of the current table is renamed, then read again for the label
      var b := EmitTryBody(p, s, cur, g);
      var h := Emit(p, s.catchBody, flow, cur, b.gen);
      Emitted(TryCode(cur, b.code, Alias(b.gen, cur), h.code), h.gen)
    else
      var r := EmitParts(p, Parts(s, cur), s, flow, g);
      Emitted(Assemble(p, s, flow, g, r.0), r.1)
  }

  function EmitTryBody(p: Program, s: Stmt, cur: Table, g: Gen): Emitted
    requires s.Try?
    decreases s, 0, 0
  {
    Emit(p, s.tryBody, Flow(cur, Some(cur)), TryBodyTable(s, cur), Gen(g.aliases[cur := g.next], g.next + 1))
  }

  /** A compound try body comes with a table of its own; any other shares the current one. */
  function TryBodyTable(s: Stmt, cur: Table): Table
    requires s.Try?
  {
    if s.tryBody.Block? then s.tryTable else cur
  }

  function EmitParts(p: Program, ps: seq<Part>, whole: Stmt, flow: Flow, g: Gen): (r: (seq<seq<CStmt>>, Gen))
    requires forall x <- ps :: x.stmt < whole
    ensures |r.0| == |ps|
    decreases whole, 0, |ps|
  {
    if ps == [] then ([], g)
    else
      var e := Emit(p, ps[0].stmt, flow, ps[0].table, g);
      var r := EmitParts(p, ps[1..], whole, flow, e.gen);
      ([e.code] + r.0, r.1)
  }

  /** The function generated for a method. Without a flag of its own it is translated under the
      flow context left by the method before it. */
  function EmitMethod(p: Program, m: Method, stale: Flow, g: Gen): Emitted {
    if IsEmpty(m.body) then Emitted([CReturn(false)], g)
    else
      var e := Emit(p, m.body, if HasExec(m) then Flow(m.table, None) else stale, m.table, g);
      var entry := if HasReturn(m) then [CBlock(None, e.code + [CDo(IDENTITY)])] else e.code;
      var logic := if HasExec(m) then [CBlock(Some(m.table), entry)] else entry;
      e.(code := [CBlock(None, [CBlock(None, logic), CReturn(false)])])
  }
}
