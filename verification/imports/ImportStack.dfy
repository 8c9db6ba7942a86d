/** The stack of files being parsed, whose nodes share one history of all imported files. */
module ImportStack {
  import opened Common

  // ----- the stack by names -----

  datatype Files = Files(stack: seq<string>, history: seq<string>)

  datatype Op = Push(name: string) | Pop

  /** A file in the history is not parsed again; the first file starts a history. */
  predicate Accepts(f: Files, name: string) {
    f.stack == [] || name !in f.history
  }

  function Apply(f: Files, op: Op): Files
    requires op.Pop? ==> f.stack != []
  {
    if op.Pop? then f.(stack := f.stack[1..])
    else if !Accepts(f, op.name) then f
    else if f.stack == [] then Files([op.name], [op.name])
    else Files([op.name] + f.stack, f.history + [op.name])
  }

  /** A run during which the stack is never empty but before the first and after the last operation. */
  predicate Runs(f: Files, ops: seq<Op>)
    decreases |ops|
  {
    ops != [] ==> f.stack != [] && Runs(Apply(f, ops[0]), ops[1..])
  }

  function ApplyAll(f: Files, ops: seq<Op>): Files
    requires Runs(f, ops)
    decreases |ops|
  {
    if ops == [] then f else ApplyAll(Apply(f, ops[0]), ops[1..])
  }

  /** The names that a run parses, in order. */
  function Accepted(f: Files, ops: seq<Op>): seq<string>
    requires Runs(f, ops)
    decreases |ops|
  {
    if ops == [] then []
    else (if ops[0].Push? && Accepts(f, ops[0].name) then [ops[0].name] else []) + Accepted(Apply(f, ops[0]), ops[1..])
  }

  /** The history has no name twice, and has every name on the stack. */
  predicate Sound(f: Files) {
    f.stack != [] ==> Distinct(f.history) && forall n | n in f.stack :: n in f.history
  }

  lemma ApplySound(f: Files, op: Op)
    requires Sound(f) && (op.Pop? ==> f.stack != [])
    ensures Sound(Apply(f, op))
    ensures f.stack != [] && Apply(f, op).stack != [] ==> f.history <= Apply(f, op).history
  {
  }

  /** One operation: the names that it accepts. */
  function AcceptedNow(f: Files, op: Op): seq<string> {
    if op.Push? && Accepts(f, op.name) then [op.name] else []
  }

  lemma AcceptedStep(f: Files, ops: seq<Op>)
    requires Runs(f, ops) && ops != [] && Sound(f)
    ensures Apply(f, ops[0]).history == f.history + AcceptedNow(f, ops[0])
    ensures Distinct(f.history + AcceptedNow(f, ops[0]))
    ensures Accepted(f, ops) == AcceptedNow(f, ops[0]) + Accepted(Apply(f, ops[0]), ops[1..])
  {
    assert f.history + [] == f.history;
  }

  /** Over every run the history grows by exactly the accepted names, none of which was in it or is
      accepted twice, so that no file is parsed twice. */
  lemma {:induction false} EachFileOnce(f: Files, ops: seq<Op>)
    requires Runs(f, ops) && Sound(f) && f.stack != []
    ensures ApplyAll(f, ops).history == f.history + Accepted(f, ops)
    ensures Distinct(f.history + Accepted(f, ops))
    decreases |ops|
  {
    if ops == [] {
      assert f.history + [] == f.history;
    } else {
      var g, now := Apply(f, ops[0]), AcceptedNow(f, ops[0]);
      ApplySound(f, ops[0]);
      AcceptedStep(f, ops);
      if g.stack != [] {
        EachFileOnce(g, ops[1..]);
      } else {
        assert ops[1..] == [];
      }
      var rest := Accepted(g, ops[1..]);
      hide Apply, Accepted, Sound, Accepts, AcceptedNow, Distinct;
      assert (f.history + now) + rest == f.history + (now + rest);
    }
  }

  /** And every file is parsed: the history has exactly the names that were in it or are pushed. */
  lemma {:induction false} EveryFile(f: Files, ops: seq<Op>, n: string)
    requires Runs(f, ops) && f.stack != []
    ensures n in ApplyAll(f, ops).history <==> n in f.history || Push(n) in ops
    decreases |ops|
  {
    if ops != [] {
      var g := Apply(f, ops[0]);
      assert Push(n) in ops <==> ops[0] == Push(n) || Push(n) in ops[1..];
      if g.stack != [] {
        EveryFile(g, ops[1..], n);
      } else {
        assert ops[1..] == [];
      }
    }
  }

  // ----- the stack in memory -----

  class Node {
    const name: string
    var next: Node?
    var history: Node?

    constructor (name: string)
      ensures this.name == name && next == null && history == null
    {
      this.name := name;
      next, history := null, null;
    }
  }

  function At(ns: seq<Node>, i: nat): Node? {
    if i < |ns| then ns[i] else null
  }

  /** Nodes linked by next, up to null. */
  ghost predicate Chain(first: Node?, ns: seq<Node>)
    reads ns
  {
    first == At(ns, 0) && forall i | 0 <= i < |ns| :: ns[i].next == At(ns, i + 1)
  }

  function Names(ns: seq<Node>): (s: seq<string>)
    ensures |s| == |ns| && forall i | 0 <= i < |s| :: s[i] == ns[i].name
  {
    seq(|ns|, i requires 0 <= i < |ns| => ns[i].name)
  }

  lemma Tail(ns: seq<Node>)
    requires ns != [] && Chain(ns[0], ns)
    ensures Chain(ns[0].next, ns[1..])
  {
    forall i | 0 <= i < |ns[1..]|
      ensures ns[1..][i].next == At(ns[1..], i + 1)
    {
      assert ns[1..][i] == ns[i + 1];
    }
  }

  lemma Head(n: Node, ns: seq<Node>)
    requires Chain(n.next, ns)
    ensures Chain(n, [n] + ns)
  {
    var all := [n] + ns;
    forall i | 0 <= i < |all|
      ensures all[i].next == At(all, i + 1)
    {
      if i > 0 {
        assert all[i] == ns[i - 1] && ns[i - 1].next == At(ns, i);
      }
    }
  }

  function Last(ns: seq<Node>): Node
    requires ns != []
  {
    ns[|ns| - 1]
  }

  lemma NameAt(ns: seq<Node>, k: nat)
    requires k < |ns|
    ensures ns[k].name in Names(ns)
  {
    assert Names(ns)[k] == ns[k].name;
  }

  lemma NoName(ns: seq<Node>, name: string)
    requires forall i | 0 <= i < |ns| :: ns[i].name != name
    ensures name !in Names(ns)
  {
  }

  lemma NameOf(n: Node)
    ensures Names([n]) == [n.name]
  {
  }

  lemma NamesAdd(a: seq<Node>, b: seq<Node>)
    ensures Names(a + b) == Names(a) + Names(b)
  {
  }

  /** All open files point to the same chain of other nodes. */
  ghost predicate History(open: seq<Node>, seen: seq<Node>)
    reads open, seen
  {
    && seen != [] && Chain(seen[0], seen) && Distinct(seen)
    && (forall i | 0 <= i < |open| :: open[i] !in seen && open[i].history == seen[0])
  }

  /** After a file and its entry have been added. */
  lemma HistoryGrows(file: Node, entry: Node, open: seq<Node>, seen: seq<Node>)
    requires seen != [] && Distinct(seen) && Chain(seen[0], seen + [entry])
    requires forall i | 0 <= i < |open| :: open[i] !in seen && open[i] != entry && open[i].history == seen[0]
    requires file !in seen && file != entry && entry !in seen && file.history == seen[0]
    ensures History([file] + open, seen + [entry])
  {
    var all := [file] + open;
    forall i | 0 <= i < |all|
      ensures all[i] !in seen + [entry] && all[i].history == seen[0]
    {
      assert i > 0 ==> all[i] == open[i - 1];
    }
  }

  /** The open files from the top down, and the one history that all of them point to. */
  ghost predicate Stack(top: Node?, open: seq<Node>, seen: seq<Node>)
    reads open, seen
  {
    Chain(top, open) && (open != [] ==> History(open, seen))
  }

  function Now(open: seq<Node>, seen: seq<Node>): Files {
    Files(Names(open), Names(seen))
  }

  /** The new top, or null for a file that has been imported before. */
  method PushFile(top: Node?, name: string, ghost open: seq<Node>, ghost seen: seq<Node>)
    returns (r: Node?, ghost open': seq<Node>, ghost seen': seq<Node>)
    requires Stack(top, open, seen)
    modifies seen
    ensures (r != null) == Accepts(Now(open, seen), name)
    ensures Now(open', seen') == Apply(Now(open, seen), Push(name))
    ensures Stack(if r == null then top else r, open', seen')
  {
    r, open', seen' := null, open, seen;
    if top == null {
      var file := new Node(name);
      var entry := new Node(name);
      file.history := entry;
      r, open', seen' := file, [file], [entry];
      return;
    }
    assert top == open[0];
    var found := Find(top.history, name, seen);
    if !found {
      r, open', seen' := PushOnto(top, name, open, seen);
    }
  }

  /** One more file, at the end of the shared history. */
  method PushOnto(top: Node, name: string, ghost open: seq<Node>, ghost seen: seq<Node>)
    returns (file: Node, ghost open': seq<Node>, ghost seen': seq<Node>)
    requires Stack(top, open, seen)
    modifies seen
    ensures Stack(file, open', seen')
    ensures Now(open', seen') == Files([name] + Names(open), Names(seen) + [name])
  {
    assert open[0] == top && History(open, seen) && top.history == seen[0];
    file := new Node(name);
    var entry := new Node(name);
    open', seen' := [file] + open, seen + [entry];
    NamesAdd(seen, [entry]);
    NamesAdd([file], open);
    NameOf(file);
    NameOf(entry);
    hide Chain, Distinct, Names;
    file.next, file.history := top, top.history;
    assert forall i | 0 <= i < |open| :: open[i] !in seen && open[i] != file && open[i] != entry;
    Append(top.history, entry, seen);
    Head(file, open);
    HistoryGrows(file, entry, open, seen);
    hide History;
  }

  method PopFile(top: Node, ghost open: seq<Node>, ghost seen: seq<Node>) returns (r: Node?)
    requires Stack(top, open, seen)
    ensures Stack(r, open[1..], seen) && Now(open[1..], seen) == Apply(Now(open, seen), Pop)
  {
    Tail(open);
    NamesAdd(open[..1], open[1..]);
    assert open == open[..1] + open[1..];
    r := top.next;
  }

  /** Walks the history. */
  method Find(first: Node?, name: string, ghost ns: seq<Node>) returns (found: bool)
    requires Chain(first, ns)
    ensures found <==> name in Names(ns)
  {
    hide Names;
    var n, k := first, 0;
    while n != null
      invariant 0 <= k <= |ns| && n == At(ns, k)
      invariant forall i | 0 <= i < k :: ns[i].name != name
      decreases |ns| - k
    {
      if n.name == name {
        NameAt(ns, k);
        return true;
      }
      n := n.next;
      k := k + 1;
    }
    NoName(ns, name);
    return false;
  }

  /** Walks to the end of the history and links one more node there. */
  method Append(first: Node?, n: Node, ghost ns: seq<Node>)
    requires ns != [] && Chain(first, ns) && n !in ns && n.next == null
    requires Distinct(ns)
    modifies Last(ns)`next
    ensures Chain(first, ns + [n]) && n.next == null
  {
    var m := first;
    ghost var k := 0;
    while m.next != null
      invariant 0 <= k < |ns| && m == At(ns, k)
      decreases |ns| - k
    {
      m := m.next;
      k := k + 1;
    }
    m.next := n;
    ghost var all := ns + [n];
    forall i | 0 <= i < |all|
      ensures all[i].next == At(all, i + 1)
    {
      if i < |ns| - 1 {
        assert all[i] == ns[i] && ns[i] != m;
      }
    }
  }
}
