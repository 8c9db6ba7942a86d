/** The C that is emitted for method bodies: boolean flags, labels and gotos. */
module CTarget {
  import opened Common
  import opened Dml

  /** The flag of a table is the C variable named after the `exec` symbol of that table. */
  type Flag = Table

  /** The number in `throwN`. */
  type Label = nat

  datatype CTest = OnStore(test: Store -> bool) | OnFlag(flag: Flag)

  datatype CStmt =
    | CDo(act: Store -> Store)
    | CBlock(decl: Option<Flag>, items: seq<CStmt>)   // { bool flag = 0; items }
    | CIf(cond: CTest, thn: CStmt, els: Option<CStmt>)
    | CLoop(init: Store -> Store, guard: Store -> bool, update: Store -> Store, body: CStmt)
    | CSwitch(selector: Store -> int, arms: seq<CStmt>)
    | CCase(value: int)
    | CDefault
    | CSetFlag(raised: Flag)
    | CCall(flag: Flag, callee: Name, enter: Store -> Store, leave: (Store, Store) -> Store)
    | CGoto(target: Label)
    | CLabel(number: Label)
    | CReturn(result: bool)
    | CBreak
    | CContinue
    | CMissing   // nothing where a statement is expected, so that the next statement of the list takes the place
    | CStray     // text that is no statement: an `else` without an `if` in front of it

  type CProgram = map<Name, seq<CStmt>>

  /** The flags that are declared where control is, and their values. */
  type Flags = map<Flag, bool>

  function Lookup(f: Flags, x: Flag): Option<bool> {
    if x in f then Some(f[x]) else None
  }

  datatype COutcome = CNormal | CReturned(result: bool) | CBroke | CContinued | CJump(target: Label)

  datatype CRun = CRun(outcome: COutcome, store: Store, flags: Flags)

  /** Position of a label among the statements of a block, or the end. */
  function FindLabel(items: seq<CStmt>, l: Label): (k: nat)
    ensures k <= |items|
    ensures k < |items| ==> items[k] == CLabel(l)
  {
    if items == [] || (items[0].CLabel? && items[0].number == l) then 0 else 1 + FindLabel(items[1..], l)
  }

  predicate IsArm(c: CStmt, a: Arm) {
    match a
    case CaseOf(v) => c.CCase? && c.value == v
    case DefaultArm => c.CDefault?
  }

  function FirstCArm(items: seq<CStmt>, a: Arm): (k: nat)
    ensures k <= |items|
  {
    if items == [] || IsArm(items[0], a) then 0 else 1 + FirstCArm(items[1..], a)
  }

  function FindEntry(items: seq<CStmt>, v: int): (k: nat)
    ensures k <= |items|
  {
    var k := FirstCArm(items, CaseOf(v));
    if k < |items| then k else FirstCArm(items, DefaultArm)
  }

  /** Runs a C statement. Iterations, calls and gotos that find their label take fuel; None means
      that the fuel did not suffice or that the text has no meaning, as where a flag is not declared. */
  function CExec(cp: CProgram, c: CStmt, st: Store, f: Flags, fuel: nat): Option<CRun>
    decreases fuel, c, 2
  {
    match c
    case CDo(act) => Some(CRun(CNormal, act(st), f))
    case CBlock(None, items) => CExecBlock(cp, items, 0, st, f, fuel)
    case CBlock(Some(x), items) => LeaveScope(CExecBlock(cp, items, 0, st, f[x := false], fuel), x, Lookup(f, x))
    case CIf(test, thn, els) =>
      (match Decide(test, st, f)
       case None => None
       case Some(b) =>
         if b then CExec(cp, thn, st, f, fuel)
         else if els.Some? then CExec(cp, els.value, st, f, fuel)
         else Some(CRun(CNormal, st, f)))
    case CLoop(init, g, update, body) => CExecLoop(cp, g, update, body, c, init(st), f, fuel)
    case CSwitch(sel, items) => AfterCLoop(CExecBlock(cp, items, FindEntry(items, sel(st)), st, f, fuel))
    case CCase(_) => Some(CRun(CNormal, st, f))
    case CDefault => Some(CRun(CNormal, st, f))
    case CSetFlag(x) => if x !in f then None else Some(CRun(CNormal, st, f[x := true]))
    case CCall(x, m, enter, leave) =>
      if x !in f || m !in cp || fuel == 0 then None
      else
        (match Result(CExecBlock(cp, cp[m], 0, enter(st), map[], fuel - 1))
         case None => None
         case Some(r) => Some(CRun(CNormal, leave(st, r.1), f[x := r.0])))
    case CGoto(l) => Some(CRun(CJump(l), st, f))
    case CLabel(_) => Some(CRun(CNormal, st, f))
    case CReturn(b) => Some(CRun(CReturned(b), st, f))
    case CBreak => Some(CRun(CBroke, st, f))
    case CContinue => Some(CRun(CContinued, st, f))
    case CMissing => None
    case CStray => None
  }

  /** The statements of a list in order, up to the first that does not end normally. */
  function CExecSeq(cp: CProgram, items: seq<CStmt>, st: Store, f: Flags, fuel: nat): Option<CRun>
    decreases fuel, items, 0
  {
    if items == [] then Some(CRun(CNormal, st, f))
    else
      match CExec(cp, items[0], st, f, fuel)
      case None => None
      case Some(r) => if r.outcome == CNormal then CExecSeq(cp, items[1..], r.store, r.flags, fuel) else Some(r)
  }

  /** A block entered at position k; a goto to one of its own labels goes on from there. */
  function CExecBlock(cp: CProgram, items: seq<CStmt>, k: nat, st: Store, f: Flags, fuel: nat): Option<CRun>
    requires k <= |items|
    decreases fuel, items, 1
  {
    assert k == 0 ==> items[k..] == items;
    match CExecSeq(cp, items[k..], st, f, fuel)
    case None => None
    case Some(r) =>
      if r.outcome.CJump? && FindLabel(items, r.outcome.target) < |items| then
        if fuel == 0 then None
        else CExecBlock(cp, items, FindLabel(items, r.outcome.target), r.store, r.flags, fuel - 1)
      else Some(r)
  }

  function CExecLoop(cp: CProgram, g: Store -> bool, update: Store -> Store, body: CStmt, whole: CStmt,
                     st: Store, f: Flags, fuel: nat): Option<CRun>
    requires body < whole
    decreases fuel, whole, 0
  {
    if !g(st) then Some(CRun(CNormal, st, f))
    else
      var r := CExec(cp, body, st, f, fuel);
      if r.Some? && (r.value.outcome == CNormal || r.value.outcome == CContinued) then
        if fuel == 0 then None
        else CExecLoop(cp, g, update, body, whole, update(r.value.store), r.value.flags, fuel - 1)
      else AfterCLoop(r)
  }

  function Decide(t: CTest, st: Store, f: Flags): Option<bool> {
    match t
    case OnStore(test) => Some(test(st))
    case OnFlag(x) => Lookup(f, x)
  }

  /** At the end of its block a flag is gone, and an outer one of that name is visible again. */
  function LeaveScope(r: Option<CRun>, x: Flag, was: Option<bool>): Option<CRun> {
    if r.None? then None
    else
      var f := r.value.flags;
      Some(r.value.(flags := if was.Some? then f[x := was.value] else f - {x}))
  }

  function AfterCLoop(r: Option<CRun>): Option<CRun> {
    if r.Some? && r.value.outcome == CBroke then Some(r.value.(outcome := CNormal)) else r
  }

  /** What a finished function body returns; control that leaves it in another way has no meaning. */
  function Result(r: Option<CRun>): Option<(bool, Store)> {
    if r.Some? && r.value.outcome.CReturned? then Some((r.value.outcome.result, r.value.store)) else None
  }

  function CExecMethod(cp: CProgram, m: Name, st: Store, fuel: nat): Option<(bool, Store)> {
    if m !in cp || fuel == 0 then None
    else Result(CExecBlock(cp, cp[m], 0, st, map[], fuel - 1))
  }
}
