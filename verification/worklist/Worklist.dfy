/** The pending and generated method lists of all objects, and what a run over them computes. */
module Worklist {
  import opened Common

  /** A method of an object. */
  datatype Node = Node(obj: nat, name: string)

  /** `calls` has the methods that exist, each with the methods its body asks for, in order. */
  datatype Program = Program(objects: nat, banks: set<nat>, fakes: set<nat>, calls: map<Node, seq<Node>>) {

    predicate Valid() {
      && (forall n | n in calls :: n.obj < objects)
      && (forall n, c | n in calls && c in calls[n] :: c.obj < objects)
    }

    /** Requests that are dropped: the access methods of banks, and everything of the fake bank. */
    predicate Dropped(n: Node) {
      n.obj in banks && (n.name == "read_access" || n.name == "write_access" || n.obj in fakes)
    }
  }

  /** The lists of all objects, the counter, and the methods handled so far. */
  datatype State = State(pending: seq<seq<string>>, done: seq<seq<string>>, counter: int, log: seq<Node>)

  function Total(lists: seq<seq<string>>): nat {
    if lists == [] then 0 else |lists[0]| + Total(lists[1..])
  }

  lemma {:induction false} TotalUpdate(lists: seq<seq<string>>, i: nat, l: seq<string>)
    requires i < |lists|
    ensures Total(lists[i := l]) == Total(lists) - |lists[i]| + |l|
  {
    if i == 0 {
      assert lists[i := l][1..] == lists[1..];
    } else {
      assert lists[i := l][1..] == lists[1..][i - 1 := l];
      TotalUpdate(lists[1..], i - 1, l);
    }
  }

  lemma {:induction false} TotalZero(lists: seq<seq<string>>)
    ensures Total(lists) == 0 <==> forall i | 0 <= i < |lists| :: lists[i] == []
  {
    if lists != [] {
      TotalZero(lists[1..]);
      assert (forall i | 0 <= i < |lists| :: lists[i] == []) <==>
             lists[0] == [] && forall i | 0 <= i < |lists[1..]| :: lists[1..][i] == [];
    }
  }

  predicate Sized(st: State, p: Program) {
    |st.pending| == p.objects && |st.done| == p.objects
  }

  /** The method is in one of the lists of its object. */
  predicate Known(st: State, n: Node) {
    n.obj < |st.pending| && n.obj < |st.done| && (n.name in st.done[n.obj] || n.name in st.pending[n.obj])
  }

  /** A request for a method; None is the exit for a method that does not exist. */
  function Add(st: State, p: Program, n: Node): (r: Option<State>)
    requires Sized(st, p) && n.obj < p.objects
    ensures r.Some? ==> Sized(r.value, p)
  {
    if p.Dropped(n) || Known(st, n) then Some(st)
    else if n !in p.calls then None
    else Some(st.(pending := st.pending[n.obj := st.pending[n.obj] + [n.name]], counter := st.counter + 1))
  }

  /** The pending list of an object goes to the front of its generated list. */
  function Splice(st: State, o: nat): State
    requires o < |st.pending| && o < |st.done|
  {
    st.(pending := st.pending[o := []], done := st.done[o := st.pending[o] + st.done[o]],
        counter := st.counter - |st.pending[o]|)
  }

  /** A request for a method that is in neither list of its object: it becomes the last of the pending
      ones unless it is one for an access method of a bank or for the fake bank, which change nothing;
      for a method that does not exist the compiler exits. */
  lemma RequestIsQueued(st: State, p: Program, n: Node)
    requires Sized(st, p) && n.obj < p.objects
    requires n.name !in st.pending[n.obj] && n.name !in st.done[n.obj]
    ensures var t := Add(st, p, n);
            var ignored := n.obj in p.banks && (n.obj in p.fakes || n.name == "read_access" || n.name == "write_access");
            && (t.None? <==> !ignored && n !in p.calls)
            && (ignored ==> t == Some(st))
            && (t.Some? && !ignored ==>
                  && t.value.pending[n.obj] == st.pending[n.obj] + [n.name]
                  && (forall k | 0 <= k < p.objects && k != n.obj :: t.value.pending[k] == st.pending[k])
                  && t.value.counter == st.counter + 1 && t.value.done == st.done && t.value.log == st.log)
  {
  }

  /** A request for a method that is in one of the lists changes nothing. */
  lemma RequestIsKnown(st: State, p: Program, n: Node)
    requires Sized(st, p) && n.obj < p.objects && (n.name in st.pending[n.obj] || n.name in st.done[n.obj])
    ensures Add(st, p, n) == Some(st)
  {
  }

  // ----- closed sets -----

  /** Everything that the methods of the set ask for is in it, but for the methods in `stale`. */
  ghost predicate Closed(p: Program, stale: set<Node>, t: set<Node>) {
    forall n, c | n in t && n in p.calls && c in p.calls[n] && !p.Dropped(c) && c !in stale :: c in t
  }

  ghost predicate Roots(p: Program, roots: set<Node>, stale: set<Node>, t: set<Node>) {
    forall n | n in roots && !p.Dropped(n) && n !in stale :: n in t
  }

  /** The least closed set that contains the roots. */
  ghost predicate Least(p: Program, roots: set<Node>, stale: set<Node>, l: set<Node>) {
    && Roots(p, roots, stale, l) && Closed(p, stale, l)
    && forall t | Roots(p, roots, stale, t) && Closed(p, stale, t) :: l <= t
  }

  /** The method is in every closed set that contains the roots. */
  ghost predicate Needed(p: Program, roots: set<Node>, stale: set<Node>, n: Node) {
    forall t: set<Node> | Roots(p, roots, stale, t) && Closed(p, stale, t) :: n in t
  }

  // ----- the invariant -----

  /** The method has been handled: it has left the pending list, or is among the first i of object o. */
  predicate Handled(st: State, o: nat, i: nat, n: Node) {
    && n.obj < |st.done| && n.obj < |st.pending|
    && (n.name in st.done[n.obj] || (n.obj == o && i <= |st.pending[o]| && n.name in st.pending[o][..i]))
  }

  /** While the first i pending methods of object o have been handled. */
  ghost predicate Inv(st: State, p: Program, roots: set<Node>, stale: set<Node>, o: nat, i: nat) {
    && Sized(st, p) && p.Valid()
    && st.counter == Total(st.pending)
    && (forall k | 0 <= k < p.objects :: Distinct(st.pending[k] + st.done[k]))
    && Distinct(st.log)
    && (forall n :: n in st.log <==> Handled(st, o, i, n) && n !in stale)
    && (forall n | Known(st, n) && n !in stale :: n in p.calls && Needed(p, roots, stale, n))
    && (forall n | n in stale :: Handled(st, o, i, n))
    && (forall n | n in roots && !p.Dropped(n) :: Known(st, n))
  }

  /** What the handled methods ask for is known. */
  ghost predicate Asked(st: State, p: Program) {
    forall n, c | n in st.log && n in p.calls && c in p.calls[n] && !p.Dropped(c) :: Known(st, c)
  }

  function Set<T>(s: seq<T>): set<T> {
    set x | x in s
  }

  // ----- steps keep it -----

  lemma DistinctAdd(a: seq<string>, b: seq<string>, x: string)
    requires Distinct(a + b) && x !in a && x !in b
    ensures Distinct((a + [x]) + b)
  {
    var c, d := a + b, (a + [x]) + b;
    forall i, j | 0 <= i < j < |d|
      ensures d[i] != d[j]
    {
      assert i < |a| ==> d[i] == a[i] == c[i];
      assert i > |a| ==> d[i] == b[i - |a| - 1] == c[i - 1];
      assert j < |a| ==> d[j] == a[j] == c[j];
      assert j > |a| ==> d[j] == b[j - |a| - 1] == c[j - 1];
    }
  }

  lemma AddKeeps(st: State, p: Program, roots: set<Node>, stale: set<Node>, o: nat, i: nat, n: Node)
    requires Inv(st, p, roots, stale, o, i) && n.obj < p.objects && o < p.objects && i <= |st.pending[o]|
    requires p.Dropped(n) || n in stale || Needed(p, roots, stale, n)
    ensures Add(st, p, n).None? ==> n !in p.calls && !p.Dropped(n) && n !in stale && Needed(p, roots, stale, n)
    ensures Add(st, p, n).Some? ==>
              var t := Add(st, p, n).value;
              && Inv(t, p, roots, stale, o, i) && t.done == st.done && t.log == st.log
              && st.pending[o] <= t.pending[o]
              && (p.Dropped(n) || Known(t, n)) && (forall m | Known(st, m) :: Known(t, m))
              && (forall k | 0 <= k < p.objects :: st.pending[k] <= t.pending[k])
  {
    if Add(st, p, n).Some? && Add(st, p, n).value != st {
      var t := Add(st, p, n).value;
      TotalUpdate(st.pending, n.obj, st.pending[n.obj] + [n.name]);
      DistinctAdd(st.pending[n.obj], st.done[n.obj], n.name);
      forall m
        ensures Handled(t, o, i, m) <==> Handled(st, o, i, m)
        ensures Known(t, m) <==> Known(st, m) || m == n
      {
        assert t.pending[o][..i] == st.pending[o][..i];
      }
    }
  }

  lemma SpliceKeeps(st: State, p: Program, roots: set<Node>, stale: set<Node>, o: nat)
    requires o < p.objects && Sized(st, p) && Inv(st, p, roots, stale, o, |st.pending[o]|)
    ensures Inv(Splice(st, o), p, roots, stale, o, 0)
    ensures forall n :: Known(st, n) <==> Known(Splice(st, o), n)
  {
    var t := Splice(st, o);
    TotalUpdate(st.pending, o, []);
    assert st.pending[o][..|st.pending[o]|] == st.pending[o];
    assert [] + (st.pending[o] + st.done[o]) == st.pending[o] + st.done[o];
    forall n
      ensures Handled(t, o, 0, n) <==> Handled(st, o, |st.pending[o]|, n)
      ensures Known(st, n) <==> Known(t, n)
    {
    }
  }

  lemma OnlyThere(a: seq<string>, b: seq<string>, i: nat)
    requires Distinct(a + b) && i < |a|
    ensures a[i] !in b && a[i] !in a[..i]
  {
    assert (a + b)[i] == a[i];
    forall k | 0 <= k < |b| ensures b[k] != a[i] { assert (a + b)[|a| + k] == b[k]; }
    forall k | 0 <= k < i ensures a[..i][k] != a[i] { assert (a + b)[k] == a[k]; }
  }

  /** Handling the next pending method of an object. */
  lemma HandleKeeps(st: State, p: Program, roots: set<Node>, stale: set<Node>, o: nat, i: nat)
    requires o < p.objects && Inv(st, p, roots, stale, o, i) && i < |st.pending[o]|
    ensures var n := Node(o, st.pending[o][i]);
            && Inv(st.(log := st.log + [n]), p, roots, stale, o, i + 1)
            && n !in stale && n in p.calls && Needed(p, roots, stale, n)
  {
    var n, t := Node(o, st.pending[o][i]), st.(log := st.log + [Node(o, st.pending[o][i])]);
    OnlyThere(st.pending[o], st.done[o], i);
    assert !Handled(st, o, i, n) && n !in st.log && n !in stale;
    assert st.pending[o][..i + 1] == st.pending[o][..i] + [n.name];
    assert Known(st, n);
    forall m
      ensures Handled(t, o, i + 1, m) <==> Handled(st, o, i, m) || m == n
    {
    }
    assert Distinct(t.log);
  }

  lemma NeededCall(p: Program, roots: set<Node>, stale: set<Node>, n: Node, c: Node)
    requires Needed(p, roots, stale, n) && n in p.calls && c in p.calls[n]
    ensures p.Dropped(c) || c in stale || Needed(p, roots, stale, c)
  {
    if !p.Dropped(c) && c !in stale {
      forall t: set<Node> | Roots(p, roots, stale, t) && Closed(p, stale, t)
        ensures c in t
      {
        assert n in t;
      }
    }
  }

  /** Between two objects it does not matter which object is meant. */
  lemma AnyObject(st: State, p: Program, roots: set<Node>, stale: set<Node>, o: nat, o': nat)
    requires Inv(st, p, roots, stale, o, 0)
    ensures Inv(st, p, roots, stale, o', 0)
  {
    assert forall n :: Handled(st, o, 0, n) <==> Handled(st, o', 0, n);
  }

  lemma {:induction false} DistinctSize<T>(s: seq<T>, t: set<T>)
    requires Distinct(s) && forall x | x in s :: x in t
    ensures |s| <= |t|
  {
    if s != [] {
      var last, front := s[|s| - 1], s[..|s| - 1];
      forall x | x in front ensures x in t - {last} {}
      DistinctSize(front, t - {last});
    }
  }

  /** The methods that are neither handled nor known to be missing. */
  lemma LogBound(st: State, p: Program, roots: set<Node>, stale: set<Node>, o: nat, i: nat)
    requires o < p.objects && Inv(st, p, roots, stale, o, i) && i <= |st.pending[o]|
    ensures |st.log| <= |p.calls.Keys|
    ensures i < |st.pending[o]| ==> |st.log| < |p.calls.Keys|
  {
    forall n | n in st.log ensures n in p.calls.Keys { assert Known(st, n); }
    DistinctSize(st.log, p.calls.Keys);
    if i < |st.pending[o]| {
      HandleKeeps(st, p, roots, stale, o, i);
      var l := st.log + [Node(o, st.pending[o][i])];
      DistinctSize(l, p.calls.Keys);
    }
  }

  /** With nothing pending, the handled methods are the least closed set with the roots. */
  lemma HandledIsLeast(st: State, p: Program, roots: set<Node>, stale: set<Node>)
    requires Inv(st, p, roots, stale, 0, 0) && Asked(st, p) && st.counter == 0
    ensures Least(p, roots, stale, Set(st.log)) && Distinct(st.log)
    ensures forall n | n in st.log :: n in p.calls
  {
    TotalZero(st.pending);
    forall n | Known(st, n) && n !in stale
      ensures n in Set(st.log) && n in p.calls && Needed(p, roots, stale, n)
    {
      assert Handled(st, 0, 0, n);
    }
    forall n | n in st.log
      ensures Known(st, n) && n !in stale
    {
      assert Handled(st, 0, 0, n);
    }
  }

  /** What that set has: the roots and what its members ask for, but for the left-over methods and the
      requests that change nothing, of which it has none. */
  lemma LeastServes(p: Program, roots: set<Node>, stale: set<Node>, l: set<Node>)
    requires Least(p, roots, stale, l)
    ensures forall n | n in l :: n.obj in p.banks ==> n.obj !in p.fakes && n.name != "read_access" && n.name != "write_access"
    ensures forall n | n in roots && n !in stale
                       && (n.obj in p.banks ==> n.obj !in p.fakes && n.name != "read_access" && n.name != "write_access") ::
              n in l
    ensures forall n, c | n in l && n in p.calls && c in p.calls[n] && c !in stale
                          && (c.obj in p.banks ==> c.obj !in p.fakes && c.name != "read_access" && c.name != "write_access") ::
              c in l
  {
    var kept := set n | n in l && !p.Dropped(n);
    assert Roots(p, roots, stale, kept) && Closed(p, stale, kept);
    assert l <= kept;
  }

  // ----- two runs -----

  lemma LeastIsUnique(p: Program, roots: set<Node>, stale: set<Node>, l: set<Node>, l': set<Node>)
    requires Least(p, roots, stale, l) && Least(p, roots, stale, l')
    ensures l == l'
  {
  }

  /** A run with left-over generated methods still yields the whole closure if and only if none of
      the closure is left over. */
  lemma StaleIsHarmless(p: Program, roots: set<Node>, stale: set<Node>, whole: set<Node>, got: set<Node>)
    requires Least(p, roots, {}, whole) && Least(p, roots, stale, got)
    ensures got == whole <==> whole !! stale
    ensures got <= whole
  {
    assert Roots(p, roots, stale, whole) && Closed(p, stale, whole);
    if whole !! stale {
      var both := got * whole;
      assert Roots(p, roots, {}, both) by {
        forall n | n in roots && !p.Dropped(n) ensures n in both {}
      }
      assert Closed(p, {}, both) by {
        forall n, c | n in both && n in p.calls && c in p.calls[n] && !p.Dropped(c) ensures c in both {}
      }
    }
    var clean := got - stale;
    assert Roots(p, roots, stale, clean) && Closed(p, stale, clean);
    assert got <= clean;
  }
}
