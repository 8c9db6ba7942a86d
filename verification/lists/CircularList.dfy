/** The circular doubly linked list that all queues of the compiler are: a head among its entries. */
module CircularList {
  import opened Common

  /** A link; the links of a deleted entry are poisoned with null. */
  class Node {
    var next: Node?
    var prev: Node?

    /** A list by itself. */
    constructor ()
      ensures Ring([this])
    {
      next := this;
      prev := this;
    }
  }

  function After(i: nat, n: nat): nat {
    if i + 1 == n then 0 else i + 1
  }

  /** One cycle through these nodes in this order, in both directions. */
  ghost predicate Ring(ns: seq<Node>)
    reads ns
  {
    && ns != [] && Distinct(ns)
    && (forall i | 0 <= i < |ns| :: ns[i].next == ns[After(i, |ns|)])
    && (forall i | 0 <= i < |ns| :: ns[After(i, |ns|)].prev == ns[i])
  }

  /** The list of a head and its entries. */
  ghost predicate List(head: Node, es: seq<Node>)
    reads [head] + es
  {
    Ring([head] + es)
  }

  /** next and prev are inverse to each other on a ring. */
  lemma NextPrevInverse(ns: seq<Node>, i: nat)
    requires Ring(ns) && i < |ns|
    ensures ns[i].next != null && ns[i].prev != null
    ensures ns[i].next.prev == ns[i] && ns[i].prev.next == ns[i]
  {
    var before := if i == 0 then |ns| - 1 else i - 1;
    assert After(before, |ns|) == i;
    assert ns[before].next == ns[i] && ns[After(before, |ns|)].prev == ns[before];
  }

  /** A node is in one ring only. */
  lemma RingPartner(ns: seq<Node>, m: Node, i: nat)
    requires Ring(ns) && i < |ns| && ns[i] == m
    ensures m.next in ns && m.prev in ns
  {
    NextPrevInverse(ns, i);
    var before := if i == 0 then |ns| - 1 else i - 1;
    assert After(before, |ns|) == i;
    assert ns[After(before, |ns|)].prev == ns[before];
  }

  function Inserted(ns: seq<Node>, k: nat, n: Node): seq<Node>
    requires k < |ns|
  {
    ns[..k + 1] + [n] + ns[k + 1..]
  }

  lemma DistinctInserted(ns: seq<Node>, k: nat, n: Node)
    requires k < |ns| && Distinct(ns) && n !in ns
    ensures Distinct(Inserted(ns, k, n))
  {
    var r := Inserted(ns, k, n);
    forall i, j | 0 <= i < j < |r| ensures r[i] != r[j] {
      assert i <= k ==> r[i] == ns[i];
      assert i > k + 1 ==> r[i] == ns[i - 1];
      assert j > k + 1 ==> r[j] == ns[j - 1];
    }
  }

  /** Puts a node between two that follow each other. */
  method Between(n: Node, prev: Node, next: Node, ghost ns: seq<Node>, ghost k: nat)
    requires Ring(ns) && n !in ns && k < |ns| && ns[k] == prev && ns[After(k, |ns|)] == next
    modifies n, prev`next, next`prev
    ensures Ring(Inserted(ns, k, n))
  {
    next.prev := n;
    n.next := next;
    n.prev := prev;
    prev.next := n;
    ghost var r := Inserted(ns, k, n);
    DistinctInserted(ns, k, n);
    hide Distinct;
    forall i | 0 <= i < |r|
      ensures r[i].next == r[After(i, |r|)] && r[After(i, |r|)].prev == r[i]
    {
      if i != k && i != k + 1 {
        var j := if i <= k then i else i - 1;
        assert r[i] == ns[j] && r[After(i, |r|)] == ns[After(j, |ns|)];
        assert ns[j] != prev && ns[After(j, |ns|)] != next;
      }
    }
  }

  /** After the head. */
  method Add(n: Node, head: Node, ghost es: seq<Node>)
    requires List(head, es) && n != head && n !in es
    modifies n, head, head.next
    ensures List(head, [n] + es)
  {
    NextPrevInverse([head] + es, 0);
    Between(n, head, head.next, [head] + es, 0);
    assert Inserted([head] + es, 0, n) == [head] + ([n] + es);
  }

  /** Before the head. */
  method AddTail(n: Node, head: Node, ghost es: seq<Node>)
    requires List(head, es) && n != head && n !in es
    modifies n, head, head.prev
    ensures List(head, es + [n])
  {
    NextPrevInverse([head] + es, 0);
    assert ([head] + es)[After(|es|, |es| + 1)].prev == ([head] + es)[|es|];
    Between(n, head.prev, head, [head] + es, |es|);
    assert Inserted([head] + es, |es|, n) == [head] + (es + [n]);
  }

  function Without<T>(s: seq<T>, k: nat): seq<T>
    requires k < |s|
  {
    s[..k] + s[k + 1..]
  }

  /** Takes an entry out of its list. */
  method Delete(e: Node, ghost head: Node, ghost es: seq<Node>, ghost k: nat)
    requires List(head, es) && k < |es| && es[k] == e
    modifies e, e.prev, e.next
    ensures List(head, Without(es, k)) && e.next == null && e.prev == null
  {
    ghost var ns := [head] + es;
    NextPrevInverse(ns, k + 1);
    assert ns[After(k, |ns|)].prev == ns[k];
    DistinctWithout(ns, k + 1);
    hide Distinct, Ring;
    Unlink(e, ns, k + 1);
    assert [head] + Without(es, k) == Without(ns, k + 1);
  }

  method Unlink(e: Node, ghost ns: seq<Node>, ghost k: nat)
    requires Ring(ns) && 0 < k < |ns| && ns[k] == e && e.prev == ns[k - 1] && e.next == ns[After(k, |ns|)]
    requires Distinct(Without(ns, k))
    modifies e, e.prev, e.next
    ensures Ring(Without(ns, k)) && e.next == null && e.prev == null
  {
    ghost var r := Without(ns, k);
    assert forall i | 0 <= i < |ns| && i != k :: ns[i] != e;
    assert forall i | 0 <= i < |ns| && i != k - 1 :: ns[i] != e.prev;
    assert forall i | 0 <= i < |ns| && i != After(k, |ns|) :: ns[i] != e.next;
    hide Distinct;
    e.next.prev := e.prev;
    e.prev.next := e.next;
    e.next := null;
    e.prev := null;
    forall i | 0 <= i < |r|
      ensures r[i].next == r[After(i, |r|)] && r[After(i, |r|)].prev == r[i]
    {
      var j := if i < k then i else i + 1;
      assert r[i] == ns[j];
      if i != k - 1 {
        assert r[After(i, |r|)] == ns[After(j, |ns|)];
      }
    }
  }

  method IsEmpty(head: Node, ghost es: seq<Node>) returns (empty: bool)
    requires List(head, es)
    ensures empty <==> es == []
  {
    assert ([head] + es)[0].next == ([head] + es)[After(0, |es| + 1)];
    empty := head.next == head;
  }

  lemma DistinctWithout(ns: seq<Node>, k: nat)
    requires k < |ns| && Distinct(ns)
    ensures Distinct(Without(ns, k))
  {
    var r := Without(ns, k);
    forall i, j | 0 <= i < j < |r|
      ensures r[i] != r[j]
    {
      assert r[i] == ns[if i < k then i else i + 1] && r[j] == ns[if j < k then j else j + 1];
    }
  }

  /** Nodes one after the other. */
  ghost predicate Chain(s: seq<Node>)
    reads s
  {
    forall i | 0 <= i < |s| - 1 :: s[i].next == s[i + 1] && s[i + 1].prev == s[i]
  }

  /** A list is a chain with both ends at its head. */
  ghost predicate Closed(head: Node, s: seq<Node>)
    reads head, s
  {
    && Chain(s)
    && head.next == (if s == [] then head else s[0]) && (if s == [] then head else s[0]).prev == head
    && head.prev == (if s == [] then head else s[|s| - 1]) && (if s == [] then head else s[|s| - 1]).next == head
  }

  lemma ListIsClosed(head: Node, s: seq<Node>)
    requires Distinct([head] + s)
    ensures List(head, s) <==> Closed(head, s)
  {
    var ns := [head] + s;
    if Ring(ns) {
      assert ns[|s|].next == ns[After(|s|, |ns|)] && ns[0].next == ns[After(0, |ns|)];
      forall i | 0 <= i < |s| - 1
        ensures s[i].next == s[i + 1] && s[i + 1].prev == s[i]
      {
        assert ns[i + 1].next == ns[After(i + 1, |ns|)] && ns[After(i + 1, |ns|)].prev == ns[i + 1];
      }
    }
    if Closed(head, s) {
      forall i | 0 <= i < |ns|
        ensures ns[i].next == ns[After(i, |ns|)] && ns[After(i, |ns|)].prev == ns[i]
      {
        if 0 < i < |s| {
          assert s[i - 1].next == s[i];
        }
      }
    }
  }

  lemma DistinctParts(list: Node, a: seq<Node>, head: Node, b: seq<Node>)
    requires Distinct([list] + a + [head] + b)
    ensures Distinct(a) && Distinct(b)
    ensures Distinct([head] + (a + b)) && Distinct([head] + b) && Distinct([list] + a) && Distinct([list] + [])
    ensures list != head && list !in a && list !in b && head !in a && head !in b && forall x | x in a :: x !in b
  {
    var all := [list] + a + [head] + b;
    assert all[0] == list && all[1 + |a|] == head;
    forall i | 0 <= i < |a| ensures all[1 + i] == a[i] {}
    forall i | 0 <= i < |b| ensures all[2 + |a| + i] == b[i] {}
    forall x | x in a
      ensures x !in b
    {
      var i :| 0 <= i < |a| && a[i] == x;
      assert all[1 + i] == x;
    }
  }

  /** Moves all entries of one list to the front of another one. */
  method SpliceInit(list: Node, head: Node, ghost a: seq<Node>, ghost b: seq<Node>)
    requires List(list, a) && List(head, b) && Distinct([list] + a + [head] + b)
    modifies list, list.next, list.prev, head, head.next
    ensures List(head, a + b) && List(list, [])
  {
    DistinctParts(list, a, head, b);
    EndsOnce(a);
    EndsOnce(b);
    ListIsClosed(list, a);
    ListIsClosed(head, b);
    hide Distinct, Ring, Chain, Ends;
    var empty := IsEmpty(list, a);
    if empty {
      assert [] + b == b;
      return;
    }
    Splice(list, head, a, b);
    ListIsClosed(head, a + b);
    ListIsClosed(list, []);
  }

  /** The ends of a list of distinct nodes are not in its middle. */
  ghost predicate Ends(s: seq<Node>) {
    s != [] ==> (forall i | 0 < i < |s| :: s[i] != s[0]) && (forall i | 0 <= i < |s| - 1 :: s[i] != s[|s| - 1])
  }

  lemma EndsOnce(s: seq<Node>)
    requires Distinct(s)
    ensures Ends(s)
  {
  }

  method Splice(list: Node, head: Node, ghost a: seq<Node>, ghost b: seq<Node>)
    requires a != [] && Closed(list, a) && Closed(head, b) && Ends(a) && Ends(b)
    requires list != head && list !in a && list !in b && head !in a && head !in b && forall x | x in a :: x !in b
    modifies list, list.next, list.prev, head, head.next
    ensures Closed(head, a + b) && Closed(list, [])
  {
    var first, last, at := list.next, list.prev, head.next;
    assert at == head || at in b;
    first.prev := head;
    head.next := first;
    last.next := at;
    at.prev := last;
    list.next := list;
    list.prev := list;
    forall i | 0 <= i < |a| - 1
      ensures a[i].next == a[i + 1] && a[i + 1].prev == a[i]
    {
      assert a[i] in a && a[i + 1] in a && a[i] != last && a[i + 1] != first;
    }
    forall i | 0 <= i < |b| - 1
      ensures b[i].next == b[i + 1] && b[i + 1].prev == b[i]
    {
      assert b[i] in b && b[i + 1] in b && b[i + 1] != at;
    }
    ChainJoin(a, b);
  }

  lemma ChainJoin(a: seq<Node>, b: seq<Node>)
    requires Chain(a) && Chain(b)
    requires a != [] && b != [] ==> a[|a| - 1].next == b[0] && b[0].prev == a[|a| - 1]
    ensures Chain(a + b)
  {
    var s := a + b;
    forall i | 0 <= i < |s| - 1
      ensures s[i].next == s[i + 1] && s[i + 1].prev == s[i]
    {
      if i >= |a| {
        assert s[i] == b[i - |a|] && s[i + 1] == b[i - |a| + 1];
      }
    }
  }
}
