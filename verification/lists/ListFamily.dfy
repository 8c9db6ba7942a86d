/** Any run of list operations on any number of lists. */
module ListFamily {
  import opened Common
  import CL = CircularList

  type Node = CL.Node

  /** Lists are named by their number; an entry to be deleted is named by itself. */
  datatype Op = Add(list: nat, n: Node) | AddTail(list: nat, n: Node) | Delete(list: nat, n: Node) | Splice(list: nat, to: nat)

  function Position(s: seq<Node>, n: Node): (k: nat)
    requires n in s
    ensures k < |s| && s[k] == n
  {
    if s[0] == n then 0 else 1 + Position(s[1..], n)
  }

  /** The operation on the contents alone. */
  function Apply(op: Op, c: seq<seq<Node>>): (r: seq<seq<Node>>)
    requires Fits(op, c)
    ensures |r| == |c|
  {
    match op
    case Add(l, n) => c[l := [n] + c[l]]
    case AddTail(l, n) => c[l := c[l] + [n]]
    case Delete(l, n) => c[l := CL.Without(c[l], Position(c[l], n))]
    case Splice(l, t) => c[t := c[l] + c[t]][l := []]
  }

  predicate Fits(op: Op, c: seq<seq<Node>>) {
    op.list < |c| &&
    match op
    case Add(_, _) => true
    case AddTail(_, _) => true
    case Delete(l, n) => n in c[l]
    case Splice(l, t) => t < |c| && l != t
  }

  function Nodes(head: Node, es: seq<Node>): set<Node> {
    set x | x in [head] + es
  }

  /** An added node is not in any list yet. */
  predicate Legal(op: Op, heads: seq<Node>, c: seq<seq<Node>>)
    requires |heads| == |c|
  {
    && Fits(op, c)
    && (op.Add? || op.AddTail? ==> forall i | 0 <= i < |c| :: op.n !in Nodes(heads[i], c[i]))
  }

  predicate Disjoint(heads: seq<Node>, c: seq<seq<Node>>)
    requires |heads| == |c|
  {
    forall i, j | 0 <= i < j < |c| :: Nodes(heads[i], c[i]) !! Nodes(heads[j], c[j])
  }

  datatype Link = Link(next: CL.Node?, prev: CL.Node?)

  /** The links of a set of nodes at one time. */
  ghost function Links(all: set<Node>): map<Node, Link>
    reads all
  {
    map n | n in all :: Link(n.next, n.prev)
  }

  /** The list of a head and its entries in a snapshot of the links. */
  predicate ListIn(links: map<Node, Link>, head: Node, es: seq<Node>) {
    var ns := [head] + es;
    && Distinct(ns) && (forall i | 0 <= i < |ns| :: ns[i] in links)
    && (forall i | 0 <= i < |ns| :: links[ns[i]].next == ns[CL.After(i, |ns|)])
    && (forall i | 0 <= i < |ns| :: links[ns[CL.After(i, |ns|)]].prev == ns[i])
  }

  lemma Snapshot(all: set<Node>, head: Node, es: seq<Node>)
    requires Nodes(head, es) <= all
    ensures CL.List(head, es) <==> ListIn(Links(all), head, es)
  {
    var ns := [head] + es;
    forall i | 0 <= i < |ns| ensures ns[i] in all { assert ns[i] in Nodes(head, es); }
    hide Nodes;
  }

  /** Every head has its entries, and no node is in two lists. */
  predicate Family(links: map<Node, Link>, heads: seq<Node>, c: seq<seq<Node>>) {
    && |heads| == |c| && Disjoint(heads, c)
    && (forall i | 0 <= i < |c| :: ListIn(links, heads[i], c[i]))
  }

  lemma ListNodes(links: map<Node, Link>, head: Node, es: seq<Node>)
    requires ListIn(links, head, es)
    ensures Nodes(head, es) <= links.Keys
  {
  }

  lemma Untouched(links: map<Node, Link>, links': map<Node, Link>, head: Node, es: seq<Node>)
    requires ListIn(links, head, es) && forall x | x in Nodes(head, es) :: x in links' && (x in links ==> links'[x] == links[x])
    ensures ListIn(links', head, es)
  {
    var ns := [head] + es;
    forall i | 0 <= i < |ns| ensures ns[i] in Nodes(head, es) && links'[ns[i]] == links[ns[i]] {}
    hide Nodes;
  }

  /** After one list has changed within `touched`, the family is as before but for this list. */
  lemma Restore(links: map<Node, Link>, links': map<Node, Link>, heads: seq<Node>, c: seq<seq<Node>>, l: nat, es: seq<Node>,
                touched: set<Node>)
    requires Family(links, heads, c) && l < |c| && ListIn(links', heads[l], es)
    requires links'.Keys == links.Keys && forall x | x in links && x !in touched :: links'[x] == links[x]
    requires Nodes(heads[l], es) <= touched
    requires forall i | 0 <= i < |c| && i != l :: Nodes(heads[i], c[i]) !! touched
    ensures Family(links', heads, c[l := es])
  {
    var d := c[l := es];
    hide ListIn, Nodes;
    forall i | 0 <= i < |d|
      ensures ListIn(links', heads[i], d[i])
    {
      if i != l {
        ListNodes(links, heads[i], c[i]);
        Untouched(links, links', heads[i], c[i]);
      }
    }
    forall i, j | 0 <= i < j < |d|
      ensures Nodes(heads[i], d[i]) !! Nodes(heads[j], d[j])
    {
      assert Nodes(heads[i], c[i]) !! Nodes(heads[j], c[j]);
    }
  }

  /** The neighbours of a member are members. */
  lemma Neighbours(head: Node, es: seq<Node>, k: nat)
    requires CL.List(head, es) && k <= |es|
    ensures var n := ([head] + es)[k];
            && n in Nodes(head, es) && n.next != null && n.prev != null
            && n.next in Nodes(head, es) && n.prev in Nodes(head, es)
  {
    CL.NextPrevInverse([head] + es, k);
    CL.RingPartner([head] + es, ([head] + es)[k], k);
  }

  lemma Others(heads: seq<Node>, c: seq<seq<Node>>, l: nat, touched: set<Node>)
    requires |heads| == |c| && Disjoint(heads, c) && l < |c|
    requires forall i | 0 <= i < |c| && i != l :: Nodes(heads[i], c[i]) !! touched
    ensures forall i | 0 <= i < |c| && i != l :: Nodes(heads[i], c[i]) !! Nodes(heads[l], c[l]) + touched
  {
  }

  /** What holds of one list of a family. */
  lemma OneOf(all: set<Node>, heads: seq<Node>, c: seq<seq<Node>>, l: nat, k: nat)
    requires Family(Links(all), heads, c) && l < |c| && k <= |c[l]|
    ensures Nodes(heads[l], c[l]) <= all && CL.List(heads[l], c[l])
    ensures var n := ([heads[l]] + c[l])[k];
            && n in Nodes(heads[l], c[l]) && n.next != null && n.prev != null
            && n.next in Nodes(heads[l], c[l]) && n.prev in Nodes(heads[l], c[l])
    ensures forall x | x !in Nodes(heads[l], c[l]) :: x != heads[l] && x !in c[l]
  {
    ListNodes(Links(all), heads[l], c[l]);
    Snapshot(all, heads[l], c[l]);
    Neighbours(heads[l], c[l], k);
  }

  lemma Joins(n: Node, heads: seq<Node>, c: seq<seq<Node>>, l: nat)
    requires |heads| == |c| && Disjoint(heads, c) && l < |c|
    requires forall i | 0 <= i < |c| :: n !in Nodes(heads[i], c[i])
    ensures n != heads[l] && n !in c[l]
    ensures Nodes(heads[l], c[l] + [n]) == Nodes(heads[l], [n] + c[l]) == Nodes(heads[l], c[l]) + {n}
    ensures forall i | 0 <= i < |c| && i != l :: Nodes(heads[i], c[i]) !! Nodes(heads[l], c[l]) + {n}
  {
    assert n !in Nodes(heads[l], c[l]);
    Others(heads, c, l, {n});
  }

  method AddEnd(tail: bool, n: Node, head: Node, ghost es: seq<Node>, ghost here: set<Node>)
    requires CL.List(head, es) && n != head && n !in es && head in here && head.next in here && head.prev in here
    modifies here, n
    ensures CL.List(head, if tail then es + [n] else [n] + es)
  {
    if tail {
      CL.AddTail(n, head, es);
    } else {
      CL.Add(n, head, es);
    }
  }

  method StepAdd(tail: bool, l: nat, n: Node, heads: seq<Node>, ghost c: seq<seq<Node>>, ghost all: set<Node>)
    requires Family(Links(all), heads, c) && l < |c| && n in all
    requires forall i | 0 <= i < |c| :: n !in Nodes(heads[i], c[i])
    modifies all
    ensures Family(Links(all), heads, c[l := if tail then c[l] + [n] else [n] + c[l]])
  {
    ghost var es, links := if tail then c[l] + [n] else [n] + c[l], Links(all);
    ghost var here := Nodes(heads[l], c[l]);
    OneOf(all, heads, c, l, 0);
    Joins(n, heads, c, l);
    hide Nodes, CL.List, ListIn, Family, Disjoint;
    AddEnd(tail, n, heads[l], c[l], here);
    Snapshot(all, heads[l], es);
    Restore(links, Links(all), heads, c, l, es, here + {n});
  }

  method StepDelete(l: nat, n: Node, heads: seq<Node>, ghost c: seq<seq<Node>>, ghost all: set<Node>)
    requires Family(Links(all), heads, c) && l < |c| && n in c[l]
    modifies all
    ensures Family(Links(all), heads, c[l := CL.Without(c[l], Position(c[l], n))])
  {
    ghost var k := Position(c[l], n);
    ghost var es, links := CL.Without(c[l], k), Links(all);
    ghost var here := Nodes(heads[l], c[l]);
    assert Nodes(heads[l], es) <= here;
    OneOf(all, heads, c, l, k + 1);
    assert Disjoint(heads, c);
    Others(heads, c, l, {});
    hide Nodes, CL.List, ListIn, Family, Disjoint, CL.Without;
    CL.Delete(n, heads[l], c[l], k);
    Snapshot(all, heads[l], es);
    Restore(links, Links(all), heads, c, l, es, here);
  }

  /** The entries of list f go to the front of list t: no other list changes. */
  method StepSplice(f: nat, t: nat, heads: seq<Node>, ghost c: seq<seq<Node>>, ghost all: set<Node>)
    requires Family(Links(all), heads, c) && f < |c| && t < |c| && f != t
    modifies all
    ensures Family(Links(all), heads, c[t := c[f] + c[t]][f := []])
  {
    ghost var links, a, b := Links(all), c[f], c[t];
    ghost var from, to := Nodes(heads[f], a), Nodes(heads[t], b);
    assert Disjoint(heads, c);
    assert from !! to;
    OneOf(all, heads, c, f, 0);
    OneOf(all, heads, c, t, 0);
    DistinctTogether(heads[f], a, heads[t], b);
    assert Nodes(heads[t], a + b) <= from + to && Nodes(heads[f], []) <= from;
    forall i | 0 <= i < |c| && i != f && i != t
      ensures Nodes(heads[i], c[i]) !! from + to
    {
      assert Nodes(heads[i], c[i]) !! from && Nodes(heads[i], c[i]) !! to;
    }
    assert Nodes(heads[t], a + b) !! Nodes(heads[f], []) by {
      OnlyHead(heads[f], a, heads[t], b);
    }
    hide Nodes, CL.List, ListIn, Family, Disjoint, Distinct;
    CL.SpliceInit(heads[f], heads[t], a, b);
    Snapshot(all, heads[t], a + b);
    Snapshot(all, heads[f], []);
    RestoreTwo(links, Links(all), heads, c, f, t, from + to);
  }

  lemma DistinctTogether(list: Node, a: seq<Node>, head: Node, b: seq<Node>)
    requires CL.List(list, a) && CL.List(head, b) && Nodes(list, a) !! Nodes(head, b)
    ensures Distinct([list] + a + [head] + b)
  {
    var all, p, q := [list] + a + [head] + b, [list] + a, [head] + b;
    assert all == p + q;
    forall i, j | 0 <= i < j < |all|
      ensures all[i] != all[j]
    {
      if i < |p| <= j {
        assert p[i] in Nodes(list, a) && q[j - |p|] in Nodes(head, b);
      }
    }
  }

  lemma OnlyHead(list: Node, a: seq<Node>, head: Node, b: seq<Node>)
    requires CL.List(list, a) && Nodes(list, a) !! Nodes(head, b)
    ensures Nodes(head, a + b) !! Nodes(list, [])
  {
    assert ([list] + a)[0] == list;
    forall i | 0 <= i < |a| ensures a[i] != list { assert ([list] + a)[i + 1] == a[i]; }
    assert list in Nodes(list, a);
    forall x | x in Nodes(head, a + b)
      ensures x != list
    {
      assert x in a || x in Nodes(head, b);
    }
  }

  lemma RestoreTwo(links: map<Node, Link>, links': map<Node, Link>, heads: seq<Node>, c: seq<seq<Node>>, f: nat, t: nat,
                   touched: set<Node>)
    requires Family(links, heads, c) && f < |c| && t < |c| && f != t
    requires ListIn(links', heads[t], c[f] + c[t]) && ListIn(links', heads[f], [])
    requires links'.Keys == links.Keys && forall x | x in links && x !in touched :: links'[x] == links[x]
    requires Nodes(heads[t], c[f] + c[t]) <= touched && Nodes(heads[f], []) <= touched
    requires Nodes(heads[t], c[f] + c[t]) !! Nodes(heads[f], [])
    requires forall i | 0 <= i < |c| && i != f && i != t :: Nodes(heads[i], c[i]) !! touched
    ensures Family(links', heads, c[t := c[f] + c[t]][f := []])
  {
    var d := c[t := c[f] + c[t]][f := []];
    hide ListIn, Nodes;
    forall i | 0 <= i < |d|
      ensures ListIn(links', heads[i], d[i])
    {
      if i != f && i != t {
        ListNodes(links, heads[i], c[i]);
        Untouched(links, links', heads[i], c[i]);
      }
    }
    forall i, j | 0 <= i < j < |d|
      ensures Nodes(heads[i], d[i]) !! Nodes(heads[j], d[j])
    {
      assert Nodes(heads[i], c[i]) !! Nodes(heads[j], c[j]);
    }
  }

  /** One operation changes the contents of its lists as on sequences, and no others. */
  method Step(op: Op, heads: seq<Node>, ghost c: seq<seq<Node>>, ghost all: set<Node>)
    requires |heads| == |c| && Family(Links(all), heads, c) && Legal(op, heads, c) && (op.Add? || op.AddTail? ==> op.n in all)
    modifies all
    ensures Family(Links(all), heads, Apply(op, c))
  {
    hide Family, Nodes;
    match op
    case Add(l, n) => StepAdd(false, l, n, heads, c, all);
    case AddTail(l, n) => StepAdd(true, l, n, heads, c, all);
    case Delete(l, n) => StepDelete(l, n, heads, c, all);
    case Splice(f, t) => StepSplice(f, t, heads, c, all);
  }

  /** Operations that are legal one after the other. */
  predicate AllLegal(ops: seq<Op>, heads: seq<Node>, c: seq<seq<Node>>)
    requires |heads| == |c|
  {
    ops != [] ==> Legal(ops[0], heads, c) && AllLegal(ops[1..], heads, Apply(ops[0], c))
  }

  function ApplyAll(ops: seq<Op>, heads: seq<Node>, c: seq<seq<Node>>): (r: seq<seq<Node>>)
    requires |heads| == |c| && AllLegal(ops, heads, c)
    ensures |r| == |c|
  {
    if ops == [] then c else ApplyAll(ops[1..], heads, Apply(ops[0], c))
  }

  /** Over every run of operations the lists stay rings without common nodes, and their contents are
      those of the same operations on sequences. */
  method Run(ops: seq<Op>, heads: seq<Node>, ghost c: seq<seq<Node>>, ghost all: set<Node>)
    requires |heads| == |c| && Family(Links(all), heads, c) && AllLegal(ops, heads, c)
    requires forall op | op in ops && (op.Add? || op.AddTail?) :: op.n in all
    modifies all
    ensures Family(Links(all), heads, ApplyAll(ops, heads, c))
  {
    assert |heads| == |c|;
    hide Family, Nodes, Apply, Legal;
    ghost var now := c;
    var k := 0;
    while k < |ops|
      invariant 0 <= k <= |ops| && |now| == |c| == |heads|
      invariant Family(Links(all), heads, now)
      invariant AllLegal(ops[k..], heads, now) && ApplyAll(ops[k..], heads, now) == ApplyAll(ops, heads, c)
    {
      assert ops[k..][0] == ops[k] && ops[k..][1..] == ops[k + 1..] && ops[k] in ops;
      Step(ops[k], heads, now, all);
      now := Apply(ops[k], now);
      k := k + 1;
    }
  }
}
