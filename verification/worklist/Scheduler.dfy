/** The rounds that handle the pending methods of all objects until the counter is 0. */
module Scheduling {
  import opened Common
  import opened Worklist
  import opened ObjectTree

  /** A needed method that does not exist: the compiler exits when it is asked for. */
  ghost predicate Missing(p: Program, roots: set<Node>, stale: set<Node>, n: Node) {
    n !in p.calls && !p.Dropped(n) && n !in stale && Needed(p, roots, stale, n)
  }

  ghost predicate SomeMissing(p: Program, roots: set<Node>, stale: set<Node>) {
    exists n :: Missing(p, roots, stale, n)
  }

  /** Every needed method is of one of these objects. */
  ghost predicate AllVisited(p: Program, roots: set<Node>, stale: set<Node>, ids: seq<nat>) {
    forall n | n in p.calls && Needed(p, roots, stale, n) :: n.obj in ids
  }

  predicate Served(st: State, p: Program, c: Node) {
    p.Dropped(c) || Known(st, c)
  }

  /** What the methods in `log` ask for is known, and of the first j requests in `calls` as well. */
  ghost predicate AskedTo(st: State, p: Program, log: seq<Node>, calls: seq<Node>, j: nat) {
    && (forall m, c | m in log && m in p.calls && c in p.calls[m] :: Served(st, p, c))
    && j <= |calls| && (forall i | 0 <= i < j :: Served(st, p, calls[i]))
  }

  class Scheduler {
    const p: Program
    const pending: array<seq<string>>
    const done: array<seq<string>>
    var counter: int
    var log: seq<Node>

    ghost function Now(): State
      reads this, pending, done
    {
      State(pending[..], done[..], counter, log)
    }

    ghost predicate Shape()
      reads this, pending, done
    {
      p.Valid() && pending.Length == done.Length == p.objects && pending != done
    }

    constructor (p: Program)
      requires p.Valid()
      ensures this.p == p && Shape() && fresh(pending) && fresh(done)
      ensures Now() == State(seq(p.objects, _ => []), seq(p.objects, _ => []), 0, [])
    {
      this.p := p;
      pending := new seq<string>[p.objects](_ => []);
      done := new seq<string>[p.objects](_ => []);
      counter := 0;
      log := [];
      new;
      assert pending[..] == seq(p.objects, _ => []) && done[..] == seq(p.objects, _ => []);
    }

    method InList(names: seq<string>, name: string) returns (found: bool)
      ensures found <==> name in names
    {
      var k := 0;
      while k < |names|
        invariant 0 <= k <= |names| && name !in names[..k]
      {
        if names[k] == name {
          return true;
        }
        k := k + 1;
      }
      return false;
    }

    /** Asks for a method; fails where the compiler exits. */
    method AddObjectMethod(n: Node) returns (ok: bool)
      requires Shape() && n.obj < p.objects
      modifies this`counter, pending
      ensures ok <==> Add(old(Now()), p, n).Some?
      ensures Now() == if ok then Add(old(Now()), p, n).value else old(Now())
    {
      if p.Dropped(n) {
        return true;
      }
      var known := InList(done[n.obj], n.name);
      if !known {
        known := InList(pending[n.obj], n.name);
      }
      if known {
        return true;
      }
      if n !in p.calls {
        return false;
      }
      counter := counter + 1;
      pending[n.obj] := pending[n.obj] + [n.name];
      assert Now() == Add(old(Now()), p, n).value;
      return true;
    }

    method AddObjectGeneratedMethod(o: nat)
      requires Shape() && o < p.objects
      modifies this`counter, pending, done
      ensures Now() == Splice(old(Now()), o)
    {
      var i := 0;
      while i < |pending[o]|
        invariant 0 <= i <= |pending[o]|
      {
        i := i + 1;
      }
      counter := counter - i;
      done[o] := pending[o] + done[o];
      pending[o] := [];
      assert Now() == Splice(old(Now()), o);
    }

    /** Handles the i-th pending method of an object: its body asks for methods one after the other. */
    method ChkDmlMethod(o: nat, i: nat, ghost roots: set<Node>, ghost stale: set<Node>) returns (ok: bool)
      requires Shape() && o < p.objects && i < |pending[o]|
      requires Inv(Now(), p, roots, stale, o, i) && Asked(Now(), p)
      modifies this`counter, this`log, pending
      ensures ok ==> i < |pending[o]| && Inv(Now(), p, roots, stale, o, i + 1) && Asked(Now(), p)
      ensures ok ==> log == old(log) + [Node(o, old(pending[o][i]))]
      ensures !ok ==> SomeMissing(p, roots, stale)
    {
      hide Inv, Asked, Needed, Closed, Add, AskedTo, Known, SomeMissing, Served, Sized;
      BeginMethod(Now(), p, roots, stale, o, i);
      var n := Node(o, pending[o][i]);
      log := log + [n];
      var calls := p.calls[n];
      var j := 0;
      while j < |calls|
        invariant 0 <= j <= |calls|
        invariant log == old(log) + [n] && i < |pending[o]|
        invariant Inv(Now(), p, roots, stale, o, i + 1)
        invariant AskedTo(Now(), p, old(log), calls, j)
      {
        ghost var st := Now();
        assert calls[j] in p.calls[n] && calls[j].obj < p.objects;
        AddStep(st, p, roots, stale, o, i + 1, old(log), n, j);
        ok := AddObjectMethod(calls[j]);
        if !ok {
          return false;
        }
        j := j + 1;
      }
      AskedAll(Now(), p, old(log), n);
      return true;
    }

    ghost predicate Ready(roots: set<Node>, stale: set<Node>)
      reads this, pending, done
    {
      Shape() && Inv(Now(), p, roots, stale, 0, 0) && Asked(Now(), p)
    }

    /** Handles the pending methods of one object; the list may grow meanwhile. */
    method ChkObjectMethod(o: nat, ghost roots: set<Node>, ghost stale: set<Node>) returns (ok: bool)
      requires Ready(roots, stale) && o < p.objects
      modifies this`counter, this`log, pending, done
      ensures ok ==> Ready(roots, stale) && Progress(old(Now()), Now(), [o])
      ensures !ok ==> SomeMissing(p, roots, stale)
    {
      AnyObject(Now(), p, roots, stale, 0, o);
      hide Inv, Asked, SomeMissing;
      ok := ChkPending(o, roots, stale);
      if ok {
        hide Splice;
        SpliceReady(Now(), p, roots, stale, o);
        AddObjectGeneratedMethod(o);
      }
    }

    method ChkPending(o: nat, ghost roots: set<Node>, ghost stale: set<Node>) returns (ok: bool)
      requires Shape() && o < p.objects && Inv(Now(), p, roots, stale, o, 0) && Asked(Now(), p)
      modifies this`counter, this`log, pending
      ensures ok ==> Inv(Now(), p, roots, stale, o, |pending[o]|) && Asked(Now(), p)
      ensures ok ==> |log| == |old(log)| + |pending[o]| && (pending[o] == [] ==> Now() == old(Now()))
      ensures ok ==> forall n | n in log :: n in old(log) || n.obj == o
      ensures ok && old(pending[o]) == [] ==> pending[o] == []
      ensures !ok ==> SomeMissing(p, roots, stale)
    {
      hide Inv, Asked, SomeMissing;
      var i := 0;
      LogBound(Now(), p, roots, stale, o, i);
      while i < |pending[o]|
        invariant i <= |pending[o]|
        invariant Inv(Now(), p, roots, stale, o, i) && Asked(Now(), p)
        invariant |log| == |old(log)| + i && (i == 0 ==> Now() == old(Now()))
        invariant forall n | n in log :: n in old(log) || n.obj == o
        invariant old(pending[o]) == [] ==> i == 0
        invariant i < |pending[o]| ==> |log| < |p.calls.Keys|
        decreases |p.calls.Keys| - |log|
      {
        ok := ChkDmlMethod(o, i, roots, stale);
        if !ok {
          return false;
        }
        i := i + 1;
        LogBound(Now(), p, roots, stale, o, i);
      }
      return true;
    }

    /** An object, then its children, then its other lists. */
    method ChkObjGenericCode(ph: Phase, o: Object, ghost roots: set<Node>, ghost stale: set<Node>) returns (ok: bool)
      requires Ready(roots, stale) && Below(Visits(ph, o), p.objects)
      modifies this`counter, this`log, pending, done
      ensures ok ==> Ready(roots, stale) && Progress(old(Now()), Now(), Visits(ph, o))
      ensures !ok ==> SomeMissing(p, roots, stale)
      decreases o, 2
    {
      hide Ready, SomeMissing;
      var roles := [Childs] + Roles(ph, o.kind);
      assert Visits(ph, o) == [o.id] + VisitsRoles(ph, o.subs, roles);
      BelowBoth([o.id], VisitsRoles(ph, o.subs, roles), p.objects);
      assert o.id in [o.id];
      ok := ChkObjectMethod(o.id, roots, stale);
      if ok {
        ghost var st := Now();
        ok := ChkLists(ph, o.subs, roles, roots, stale);
        if ok {
          Chain(old(Now()), st, Now(), [o.id], VisitsRoles(ph, o.subs, roles));
        }
      }
    }

    method ChkLists(ph: Phase, subs: seq<Sub>, roles: seq<Role>, ghost roots: set<Node>, ghost stale: set<Node>)
      returns (ok: bool)
      requires Ready(roots, stale) && Below(VisitsRoles(ph, subs, roles), p.objects)
      modifies this`counter, this`log, pending, done
      ensures ok ==> Ready(roots, stale) && Progress(old(Now()), Now(), VisitsRoles(ph, subs, roles))
      ensures !ok ==> SomeMissing(p, roots, stale)
      decreases subs, 1
    {
      hide Ready, SomeMissing, Visits;
      var k := 0;
      while k < |roles|
        invariant 0 <= k <= |roles|
        invariant Ready(roots, stale) && Progress(old(Now()), Now(), VisitsRoles(ph, subs, roles[..k]))
      {
        ghost var st := Now();
        forall id | id in VisitsRole(ph, subs, roles[k])
          ensures id in VisitsRoles(ph, subs, roles)
        {
          InRoles(ph, subs, roles, id);
        }
        ok := ChkList(ph, subs, roles[k], roots, stale);
        if !ok {
          return false;
        }
        RolesSnoc(ph, subs, roles[..k], roles[k]);
        assert roles[..k + 1] == roles[..k] + [roles[k]];
        Chain(old(Now()), st, Now(), VisitsRoles(ph, subs, roles[..k]), VisitsRole(ph, subs, roles[k]));
        k := k + 1;
      }
      assert roles[..k] == roles;
      return true;
    }

    method ChkList(ph: Phase, subs: seq<Sub>, role: Role, ghost roots: set<Node>, ghost stale: set<Node>) returns (ok: bool)
      requires Ready(roots, stale) && Below(VisitsRole(ph, subs, role), p.objects)
      modifies this`counter, this`log, pending, done
      ensures ok ==> Ready(roots, stale) && Progress(old(Now()), Now(), VisitsRole(ph, subs, role))
      ensures !ok ==> SomeMissing(p, roots, stale)
      decreases subs, 0
    {
      hide Ready, SomeMissing, Visits;
      var k := 0;
      while k < |subs|
        invariant 0 <= k <= |subs|
        invariant Ready(roots, stale) && Progress(old(Now()), Now(), VisitsRole(ph, subs[..k], role))
      {
        ghost var st := Now();
        RoleSnoc(ph, subs[..k], subs[k], role);
        assert subs[..k + 1] == subs[..k] + [subs[k]];
        var s := subs[k];
        if s.role == role {
          assert s.obj < s;
          RoleTake(ph, subs, role, k + 1);
          BelowPart(VisitsRole(ph, subs[..k], role), Visits(ph, s.obj), VisitsRole(ph, subs, role), p.objects);
          ok := ChkObjGenericCode(ph, s.obj, roots, stale);
          if !ok {
            return false;
          }
          Chain(old(Now()), st, Now(), VisitsRole(ph, subs[..k], role), Visits(ph, s.obj));
        } else {
          assert VisitsRole(ph, subs[..k], role) + [] == VisitsRole(ph, subs[..k], role);
        }
        k := k + 1;
      }
      assert subs[..k] == subs;
      return true;
    }

    /** One round over the device and its lists. */
    method ChkDeviceCode(ph: Phase, device: Object, ghost roots: set<Node>, ghost stale: set<Node>) returns (ok: bool)
      requires Ready(roots, stale) && Below(DeviceVisits(ph, device), p.objects)
      modifies this`counter, this`log, pending, done
      ensures ok ==> Ready(roots, stale) && Progress(old(Now()), Now(), DeviceVisits(ph, device))
      ensures !ok ==> SomeMissing(p, roots, stale)
    {
      BelowBoth(Visits(ph, device), VisitsRoles(ph, device.subs, DeviceRoles(ph)), p.objects);
      hide Ready, SomeMissing, Visits, VisitsRoles, Below;
      ok := ChkObjGenericCode(ph, device, roots, stale);
      if ok {
        ghost var st := Now();
        ok := ChkLists(ph, device.subs, DeviceRoles(ph), roots, stale);
        if ok {
          Chain(old(Now()), st, Now(), Visits(ph, device), VisitsRoles(ph, device.subs, DeviceRoles(ph)));
        }
      }
    }

    /** Rounds until nothing is pending: with every needed method on a visited object they end, and
        the methods handled, each once, are the least set with the roots that is closed under calls;
        the compiler exits if and only if this set has a method that does not exist. */
    method ChkDmlCode(ph: Phase, device: Object, ghost roots: set<Node>, ghost stale: set<Node>) returns (ok: bool)
      requires Ready(roots, stale) && Below(DeviceVisits(ph, device), p.objects)
      requires AllVisited(p, roots, stale, DeviceVisits(ph, device))
      modifies this`counter, this`log, pending, done
      ensures ok <==> !SomeMissing(p, roots, stale)
      ensures ok ==> Ready(roots, stale) && counter == 0
      ensures ok ==> Distinct(log) && Least(p, roots, stale, Set(log)) && forall n | n in log :: n in p.calls
      ensures ok ==>
                forall n | n in roots && n !in stale
                           && (n.obj in p.banks ==> n.obj !in p.fakes && n.name != "read_access" && n.name != "write_access") ::
                  n in log
      ensures ok ==>
                forall n | n in log :: n.obj in p.banks ==> n.obj !in p.fakes && n.name != "read_access" && n.name != "write_access"
    {
      hide Asked, SomeMissing, DeviceVisits, AllVisited, Progress, Inv;
      AtMost(Now(), p, roots, stale);
      while counter != 0
        invariant Ready(roots, stale) && |log| <= |p.calls.Keys|
        decreases |p.calls.Keys| - |log|
      {
        ghost var st := Now();
        ok := ChkDeviceCode(ph, device, roots, stale);
        if !ok {
          return false;
        }
        RoundMoves(st, Now(), p, roots, stale, DeviceVisits(ph, device));
        AtMost(Now(), p, roots, stale);
      }
      HandledIsLeast(Now(), p, roots, stale);
      LeastServes(p, roots, stale, Set(log));
      assert forall n :: n in Set(log) <==> n in log;
      NoneMissing(p, roots, stale, log);
      return true;
    }

    /** Up to k rounds, as long as something is pending. If every needed method is of a visited object,
        nothing is pending any more after as many rounds as there are methods and one; if not, something
        is still pending after any number of rounds. Where nothing is pending at the visited objects,
        no number of rounds changes anything. */
    method ChkRounds(ph: Phase, device: Object, k: nat, ghost roots: set<Node>, ghost stale: set<Node>) returns (ok: bool)
      requires Ready(roots, stale) && log == [] && Below(DeviceVisits(ph, device), p.objects)
      modifies this`counter, this`log, pending, done
      ensures !ok ==> SomeMissing(p, roots, stale)
      ensures ok ==> Ready(roots, stale)
      ensures ok && counter == 0 ==> AllVisited(p, roots, stale, DeviceVisits(ph, device))
      ensures ok && k > |p.calls.Keys| && AllVisited(p, roots, stale, DeviceVisits(ph, device)) ==> counter == 0
      ensures ok && Idle(old(Now()), DeviceVisits(ph, device)) ==> Now() == old(Now())
    {
      hide Asked, SomeMissing, DeviceVisits, Inv, AllVisited, Idle;
      AtMost(Now(), p, roots, stale);
      var i := 0;
      while counter != 0 && i < k
        invariant Ready(roots, stale) && |log| <= |p.calls.Keys|
        invariant AllVisited(p, roots, stale, DeviceVisits(ph, device)) && counter != 0 ==> |log| >= i
        invariant forall n | n in log :: n.obj in DeviceVisits(ph, device)
        invariant Idle(old(Now()), DeviceVisits(ph, device)) ==> Now() == old(Now())
        invariant i <= k
        decreases k - i
      {
        ghost var st := Now();
        ok := ChkDeviceCode(ph, device, roots, stale);
        if !ok {
          return false;
        }
        if AllVisited(p, roots, stale, DeviceVisits(ph, device)) {
          RoundMoves(st, Now(), p, roots, stale, DeviceVisits(ph, device));
        }
        AtMost(Now(), p, roots, stale);
        i := i + 1;
      }
      if counter == 0 {
        HandledIsVisited(Now(), p, roots, stale, DeviceVisits(ph, device));
      }
      return true;
    }

    /** Asks for the methods that the device itself needs. */
    method AddRoots(names: seq<Node>, ghost stale: set<Node>) returns (ok: bool)
      requires Ready({}, stale) && log == [] && forall n | n in names :: n.obj < p.objects
      modifies this`counter, pending
      ensures ok ==> Ready(Set(names), stale) && log == []
      ensures !ok ==> SomeMissing(p, Set(names), stale)
    {
      hide Inv;
      var k := 0;
      assert Set(names[..0]) == {};
      while k < |names|
        invariant 0 <= k <= |names| && log == []
        invariant Ready(Set(names[..k]), stale)
      {
        ghost var st := Now();
        RootStep(st, p, stale, names, k);
        ok := AddObjectMethod(names[k]);
        if !ok {
          return false;
        }
        k := k + 1;
      }
      assert names[..k] == names;
      return true;
    }

    /** One phase: the roots, then rounds. */
    method Phase(ph: Phase, device: Object, names: seq<Node>, ghost stale: set<Node>) returns (ok: bool)
      requires Ready({}, stale) && log == [] && (forall n | n in names :: n.obj < p.objects)
      requires Below(DeviceVisits(ph, device), p.objects)
      requires AllVisited(p, Set(names), stale, DeviceVisits(ph, device))
      modifies this`counter, this`log, pending, done
      ensures ok <==> !SomeMissing(p, Set(names), stale)
      ensures ok ==> Ready(Set(names), stale) && counter == 0
      ensures ok ==> Distinct(log) && Least(p, Set(names), stale, Set(log)) && forall n | n in log :: n in p.calls
    {
      hide Ready, SomeMissing, AllVisited, Below, DeviceVisits, Least;
      ok := AddRoots(names, stale);
      if ok {
        ok := ChkDmlCode(ph, device, Set(names), stale);
      }
    }

    /** Both lists of these objects are emptied. */
    method InitObjects(ids: seq<nat>)
      requires Shape() && Below(ids, p.objects)
      modifies pending, done
      ensures forall o | 0 <= o < p.objects :: done[o] == if o in ids then [] else old(done[o])
      ensures forall o | 0 <= o < p.objects :: pending[o] == if o in ids then [] else old(pending[o])
    {
      var k := 0;
      while k < |ids|
        invariant 0 <= k <= |ids|
        invariant forall o | 0 <= o < p.objects :: done[o] == if o in ids[..k] then [] else old(done[o])
        invariant forall o | 0 <= o < p.objects :: pending[o] == if o in ids[..k] then [] else old(pending[o])
      {
        assert ids[k] in ids && ids[..k + 1] == ids[..k] + [ids[k]];
        done[ids[k]] := [];
        pending[ids[k]] := [];
        k := k + 1;
      }
      assert ids[..k] == ids;
    }

    /** The lists of every object that the reset visits are emptied; the output starts anew. */
    method BackToZero(device: Object, ghost roots: set<Node>)
      requires Ready(roots, {}) && counter == 0 && Below(DeviceVisits(Reset, device), p.objects)
      modifies this`log, pending, done
      ensures Ready({}, Kept(old(log), DeviceVisits(Reset, device))) && log == [] && counter == 0
    {
      ghost var st := Now();
      hide DeviceVisits, Inv, Asked, Kept;
      InitObjects(DeviceVisits(Reset, device));
      log := [];
      ResetReady(st, Now(), p, roots, DeviceVisits(Reset, device));
    }
  }

  /** The handled methods of objects that are not among `ids`. */
  function Kept(log: seq<Node>, ids: seq<nat>): set<Node> {
    set n | n in log && n.obj !in ids
  }

  lemma ResetReady(a: State, b: State, p: Program, roots: set<Node>, ids: seq<nat>)
    requires Inv(a, p, roots, {}, 0, 0) && a.counter == 0 && Sized(b, p) && b.counter == 0 && b.log == []
    requires forall o | 0 <= o < p.objects :: b.done[o] == if o in ids then [] else a.done[o]
    requires forall o | 0 <= o < p.objects :: b.pending[o] == if o in ids then [] else a.pending[o]
    ensures Inv(b, p, {}, Kept(a.log, ids), 0, 0) && Asked(b, p)
  {
    TotalZero(a.pending);
    TotalZero(b.pending);
    forall o | 0 <= o < p.objects
      ensures Distinct(b.pending[o] + b.done[o])
    {
      assert b.pending[o] + b.done[o] == if o in ids then [] else a.pending[o] + a.done[o];
    }
    forall n
      ensures Known(b, n) <==> n in Kept(a.log, ids)
      ensures Handled(b, 0, 0, n) <==> Known(b, n)
    {
      assert Known(a, n) <==> Handled(a, 0, 0, n);
    }
  }

  lemma RootStep(st: State, p: Program, stale: set<Node>, names: seq<Node>, k: nat)
    requires k < |names| && Inv(st, p, Set(names[..k]), stale, 0, 0) && Asked(st, p) && st.log == []
    requires names[k].obj < p.objects
    ensures var r := Add(st, p, names[k]);
            && (r.None? ==> SomeMissing(p, Set(names), stale))
            && (r.Some? ==> Inv(r.value, p, Set(names[..k + 1]), stale, 0, 0) && Asked(r.value, p) && r.value.log == [])
  {
    var n, roots, roots' := names[k], Set(names[..k]), Set(names[..k + 1]);
    assert names[..k + 1] == names[..k] + [n];
    assert n in names[..k + 1] && n in names;
    forall m | Needed(p, roots, stale, m) ensures Needed(p, roots', stale, m) {
      MoreRoots(p, roots, roots', stale, m);
    }
    assert p.Dropped(n) || n in stale || (Needed(p, roots', stale, n) && Needed(p, Set(names), stale, n));
    hide Needed;
    if Add(st, p, n).None? {
      assert Missing(p, Set(names), stale, n);
    } else {
      AddRoot(st, p, roots, roots', stale, n);
    }
  }

  lemma MoreRoots(p: Program, roots: set<Node>, roots': set<Node>, stale: set<Node>, n: Node)
    requires roots <= roots' && Needed(p, roots, stale, n)
    ensures Needed(p, roots', stale, n)
  {
    forall t: set<Node> | Roots(p, roots', stale, t) && Closed(p, stale, t) ensures n in t {
      assert Roots(p, roots, stale, t);
    }
  }

  lemma AddRoot(st: State, p: Program, roots: set<Node>, roots': set<Node>, stale: set<Node>, n: Node)
    requires Inv(st, p, roots, stale, 0, 0) && st.log == [] && n.obj < p.objects && Add(st, p, n).Some?
    requires forall m | Needed(p, roots, stale, m) :: Needed(p, roots', stale, m)
    requires p.Dropped(n) || n in stale || Needed(p, roots', stale, n)
    requires forall m | m in roots' :: m in roots || m == n
    ensures Inv(Add(st, p, n).value, p, roots', stale, 0, 0) && Asked(Add(st, p, n).value, p)
  {
    hide Needed;
    var t := Add(st, p, n).value;
    assert n in stale ==> Handled(st, 0, 0, n);
    if t != st {
      TotalUpdate(st.pending, n.obj, st.pending[n.obj] + [n.name]);
      DistinctAdd(st.pending[n.obj], st.done[n.obj], n.name);
    }
    forall m
      ensures Handled(t, 0, 0, m) <==> Handled(st, 0, 0, m)
      ensures Known(t, m) <==> Known(st, m) || (t != st && m == n)
    {
    }
  }

  /** The check, the reset and the generation of a device: generation yields the closure of its roots
      but for what is left over from the check, and all of it if and only if nothing in it belongs to
      an object that the check has handled and the reset has passed over. */
  method CheckThenGenerate(p: Program, device: Object, checkRoots: seq<Node>, genRoots: seq<Node>)
    returns (ok: bool, log: seq<Node>, checked: seq<Node>)
    requires p.Valid() && (forall n | n in checkRoots :: n.obj < p.objects) && (forall n | n in genRoots :: n.obj < p.objects)
    requires forall ph :: Below(DeviceVisits(ph, device), p.objects)
    requires AllVisited(p, Set(checkRoots), {}, DeviceVisits(Check, device))
    requires AllVisited(p, Set(genRoots), {}, DeviceVisits(Gen, device))
    ensures ok ==> Least(p, Set(checkRoots), {}, Set(checked))
    ensures ok ==> Distinct(log) && Least(p, Set(genRoots), Kept(checked, DeviceVisits(Reset, device)), Set(log))
    ensures ok ==> forall whole | Least(p, Set(genRoots), {}, whole) ::
              Set(log) == whole <==> whole !! Kept(checked, DeviceVisits(Reset, device))
    ensures ok ==> forall n | n in checked && (n.obj !in DeviceEvents(device)) :: n !in Kept(checked, DeviceVisits(Reset, device))
    ensures ok && Tree(device) && device.kind.Device? ==>
              Kept(checked, DeviceVisits(Reset, device)) == set n | n in checked && n.obj in DeviceEvents(device)
    ensures !ok ==> SomeMissing(p, Set(checkRoots), {}) ||
                    SomeMissing(p, Set(genRoots), Kept(checked, DeviceVisits(Reset, device)))
  {
    hide SomeMissing, Needed, Below, DeviceVisits, DeviceEvents, Least, AllVisited, Tree, Kept;
    checked, log := [], [];
    var s := new Scheduler(p);
    FreshReady(p);
    ok := s.Phase(Check, device, checkRoots, {});
    if ok {
      checked := s.log;
      ghost var stale := Kept(checked, DeviceVisits(Reset, device));
      LeftOver(p, device, Set(checkRoots), checked);
      StillVisited(p, Set(genRoots), stale, DeviceVisits(Gen, device));
      s.BackToZero(device, Set(checkRoots));
      ok := s.Phase(Gen, device, genRoots, stale);
      log := s.log;
      if ok {
        forall whole | Least(p, Set(genRoots), {}, whole)
          ensures Set(log) == whole <==> whole !! stale
        {
          StaleIsHarmless(p, Set(genRoots), stale, whole, Set(log));
        }
      }
    }
  }

  /** What is left over is what has been handled of the events that the reset passes over. */
  lemma LeftOver(p: Program, device: Object, roots: set<Node>, checked: seq<Node>)
    requires Least(p, roots, {}, Set(checked)) && (forall n | n in checked :: n in p.calls)
    requires AllVisited(p, roots, {}, DeviceVisits(Check, device))
    ensures forall n | n in checked && n.obj !in DeviceEvents(device) :: n !in Kept(checked, DeviceVisits(Reset, device))
    ensures Tree(device) && device.kind.Device? ==>
              Kept(checked, DeviceVisits(Reset, device)) == set n | n in checked && n.obj in DeviceEvents(device)
  {
    hide DeviceVisits, DeviceEvents, Needed, Least, Tree;
    forall n | n in checked
      ensures n.obj in DeviceVisits(Reset, device) || n.obj in DeviceEvents(device)
      ensures Tree(device) && device.kind.Device? ==> (n.obj in DeviceVisits(Reset, device) <==> n.obj !in DeviceEvents(device))
    {
      LeastIsNeeded(p, roots, {}, checked, n);
      PhasesOfDevice(device, n.obj);
    }
  }

  lemma StillVisited(p: Program, roots: set<Node>, stale: set<Node>, ids: seq<nat>)
    requires AllVisited(p, roots, {}, ids)
    ensures AllVisited(p, roots, stale, ids)
  {
    forall n | Needed(p, roots, stale, n)
      ensures Needed(p, roots, {}, n)
    {
      FewerStale(p, roots, stale, n);
    }
  }

  // ----- a device that loses a method -----

  const INIT := Node(0, "init")
  const POST := Node(3, "post")

  /** The device asks for init, which posts an event of a register of a bank. */
  function EventProgram(): Program {
    Program(4, {1}, {}, map[INIT := [POST], POST := []])
  }

  function EventDevice(): Object {
    var event := Object(3, Event, []);
    var register := Object(2, Register, [Sub(Events, event)]);
    var bank := Object(1, Bank, [Sub(Childs, register)]);
    Object(0, Device, [Sub(Childs, bank)])
  }

  /** Check and generation visit all four objects, the reset passes over the event. */
  lemma EventVisits(ph: Phase)
    ensures DeviceVisits(ph, EventDevice()) == if ph.Reset? then [0, 1, 2] else [0, 1, 2, 3]
  {
    hide Visits, VisitsRoles, Roles;
    var event := Sub(Events, Object(3, Event, []));
    var register := Sub(Childs, Object(2, Register, [event]));
    var bank := Sub(Childs, Object(1, Bank, [register]));
    var device := Object(0, Device, [bank]);
    assert EventDevice() == device;
    RegisterVisits(ph, event);
    OneVisited(ph, 1, Bank, register);
    OneVisited(ph, 0, Device, bank);
    OneSub(ph, bank, DeviceRoles(ph));
    TimesNever(DeviceRoles(ph), Childs, Visits(ph, bank.obj));
    hide DeviceRoles, Times, EventDevice;
    assert DeviceVisits(ph, device) == Visits(ph, device);
  }

  lemma RegisterVisits(ph: Phase, event: Sub)
    requires event == Sub(Events, Object(3, Event, []))
    ensures Visits(ph, Object(2, Register, [event])) == [2] + if ph.Reset? then [] else [3]
  {
    hide Visits, VisitsRoles;
    var roles := [Childs] + Roles(ph, Register);
    OneSub(ph, event, roles);
    NoSubs(ph, [Childs]);
    VisitsOf(ph, event.obj);
    VisitsOf(ph, Object(2, Register, [event]));
    assert [Childs] + Roles(ph, Event) == [Childs];
    assert Visits(ph, event.obj) == [3];
    if ph.Reset? {
      TimesNever(roles, Events, [3]);
    } else {
      TimesOnce(roles, Events, [3], 1);
    }
  }

  /** A bank or device with one child. */
  lemma OneVisited(ph: Phase, id: nat, kind: Kind, s: Sub)
    requires (kind.Bank? || kind.Device?) && s.role == Childs
    ensures Visits(ph, Object(id, kind, [s])) == [id] + Visits(ph, s.obj)
  {
    hide Visits;
    var roles := [Childs] + Roles(ph, kind);
    OneSub(ph, s, roles);
    TimesOnce(roles, Childs, Visits(ph, s.obj), 0);
    VisitsOf(ph, Object(id, kind, [s]));
  }

  lemma VisitsOf(ph: Phase, o: Object)
    ensures Visits(ph, o) == [o.id] + VisitsRoles(ph, o.subs, [Childs] + Roles(ph, o.kind))
  {
  }

  lemma {:induction false} TimesNever(roles: seq<Role>, role: Role, ids: seq<nat>)
    requires role !in roles
    ensures Times(roles, role, ids) == []
  {
    if roles != [] {
      TimesNever(roles[1..], role, ids);
    }
  }

  lemma {:induction false} TimesOnce(roles: seq<Role>, role: Role, ids: seq<nat>, k: nat)
    requires k < |roles| && roles[k] == role && role !in roles[..k] && role !in roles[k + 1..]
    ensures Times(roles, role, ids) == ids
    decreases k
  {
    if k == 0 {
      TimesNever(roles[1..], role, ids);
    } else {
      assert roles[0] in roles[..k] && roles[1..][..k - 1] == roles[..k][1..] && roles[1..][k..] == roles[k + 1..];
      TimesOnce(roles[1..], role, ids, k - 1);
    }
  }

  lemma {:induction false} NoSubs(ph: Phase, roles: seq<Role>)
    ensures VisitsRoles(ph, [], roles) == []
    decreases roles
  {
    if roles != [] {
      NoSubs(ph, roles[1..]);
    }
  }

  function Times(roles: seq<Role>, role: Role, ids: seq<nat>): seq<nat> {
    if roles == [] then [] else (if roles[0] == role then ids else []) + Times(roles[1..], role, ids)
  }

  lemma {:induction false} OneSub(ph: Phase, s: Sub, roles: seq<Role>)
    ensures VisitsRoles(ph, [s], roles) == Times(roles, s.role, Visits(ph, s.obj))
    decreases roles
  {
    hide Visits;
    if roles != [] {
      OneSub(ph, s, roles[1..]);
      assert [s][1..] == [] && VisitsRole(ph, [], roles[0]) == [];
    }
  }

  lemma EventClosure()
    ensures Least(EventProgram(), {INIT}, {}, {INIT, POST})
    ensures Least(EventProgram(), {INIT}, {POST}, {INIT})
  {
    var p := EventProgram();
    assert p.calls[INIT] == [POST] && p.calls[POST] == [];
  }

  lemma EventsNeeded(stale: set<Node>)
    ensures EventProgram().Valid()
    ensures !SomeMissing(EventProgram(), {INIT}, stale)
    ensures AllVisited(EventProgram(), {INIT}, stale, [0, 1, 2, 3])
  {
    var p, all := EventProgram(), {INIT, POST};
    assert p.calls[INIT] == [POST] && p.calls[POST] == [];
    assert Roots(p, {INIT}, stale, all) && Closed(p, stale, all);
  }

  /** Where the reset passes over an object, generation leaves out what the check has handled there. */
  method RunPhases(p: Program, device: Object, roots: seq<Node>, ghost all: set<Node>, ghost left: set<Node>, ghost rest: set<Node>)
    returns (log: seq<Node>, checked: seq<Node>)
    requires p.Valid() && (forall n | n in roots :: n.obj < p.objects)
    requires forall ph :: Below(DeviceVisits(ph, device), p.objects)
    requires AllVisited(p, Set(roots), {}, DeviceVisits(Check, device))
    requires AllVisited(p, Set(roots), {}, DeviceVisits(Gen, device))
    requires forall stale :: !SomeMissing(p, Set(roots), stale)
    requires Least(p, Set(roots), {}, all) && Least(p, Set(roots), left, rest)
    requires left == set n | n in all && n.obj !in DeviceVisits(Reset, device)
    ensures Set(checked) == all && Set(log) == rest && Distinct(log)
  {
    hide DeviceVisits, SomeMissing, AllVisited, Least, Kept, Tree, DeviceEvents, Below;
    var ok;
    ok, log, checked := CheckThenGenerate(p, device, roots, roots);
    LeastIsUnique(p, Set(roots), {}, Set(checked), all);
    KeptOf(checked, DeviceVisits(Reset, device));
    LeastIsUnique(p, Set(roots), left, Set(log), rest);
  }

  lemma KeptOf(log: seq<Node>, ids: seq<nat>)
    ensures Kept(log, ids) == set n | n in Set(log) && n.obj !in ids
  {
  }

  lemma EventFacts()
    ensures var p, device := EventProgram(), EventDevice();
            && p.objects == 4 && INIT.obj < 4 && (forall ph :: Below(DeviceVisits(ph, device), 4))
            && AllVisited(p, {INIT}, {}, DeviceVisits(Check, device)) && AllVisited(p, {INIT}, {}, DeviceVisits(Gen, device))
            && (forall stale :: !SomeMissing(p, {INIT}, stale))
            && {POST} == set n | n in {INIT, POST} && n.obj !in DeviceVisits(Reset, device)
  {
    hide SomeMissing, AllVisited, DeviceVisits, EventDevice;
    forall ph: Phase { EventVisits(ph); }
    EventsNeeded({});
    forall stale: set<Node> ensures !SomeMissing(EventProgram(), {INIT}, stale) { EventsNeeded(stale); }
  }

  /** Both phases get through, the check handles the event method, and generation leaves it out. */
  method GenerationLosesEvent() returns (log: seq<Node>, checked: seq<Node>)
    ensures Set(checked) == {INIT, POST} && Set(log) == {INIT}
    ensures Least(EventProgram(), {INIT}, {}, {INIT, POST})
  {
    hide *;
    EventClosure();
    EventsNeeded({});
    EventFacts();
    SetOfOne(INIT);
    log, checked := RunPhases(EventProgram(), EventDevice(), [INIT], {INIT, POST}, {POST}, {INIT});
  }

  lemma SetOfOne<T>(x: T)
    ensures Set([x]) == {x}
  {
  }

  lemma LeastIsNeeded(p: Program, roots: set<Node>, stale: set<Node>, log: seq<Node>, n: Node)
    requires Least(p, roots, stale, Set(log)) && n in log
    ensures Needed(p, roots, stale, n)
  {
    assert n in Set(log);
  }

  lemma FewerStale(p: Program, roots: set<Node>, stale: set<Node>, n: Node)
    requires Needed(p, roots, stale, n)
    ensures Needed(p, roots, {}, n)
  {
    forall t: set<Node> | Roots(p, roots, {}, t) && Closed(p, {}, t)
      ensures n in t
    {
      assert Roots(p, roots, stale, t) && Closed(p, stale, t);
    }
  }

  lemma FreshReady(p: Program)
    requires p.Valid()
    ensures var st := State(seq(p.objects, _ => []), seq(p.objects, _ => []), 0, []); Inv(st, p, {}, {}, 0, 0) && Asked(st, p)
  {
    var st := State(seq(p.objects, _ => []), seq(p.objects, _ => []), 0, []);
    TotalZero(st.pending);
  }

  predicate Below(ids: seq<nat>, n: nat) {
    forall id | id in ids :: id < n
  }

  lemma BelowBoth(a: seq<nat>, b: seq<nat>, n: nat)
    requires Below(a + b, n)
    ensures Below(a, n) && Below(b, n)
  {
    forall id | id in a || id in b ensures id < n { assert id in a + b; }
  }

  lemma BelowPart(a: seq<nat>, b: seq<nat>, c: seq<nat>, n: nat)
    requires Below(c, n) && a + b <= c
    ensures Below(b, n)
  {
    forall k | 0 <= k < |b| ensures b[k] < n { assert c[|a| + k] == (a + b)[|a| + k] == b[k] && c[|a| + k] in c; }
  }

  // ----- progress -----

  /** Nothing is pending at these objects. */
  predicate Idle(st: State, ids: seq<nat>) {
    forall id | id in ids :: id < |st.pending| && st.pending[id] == []
  }

  /** Methods of these objects are handled, and of no others: either something has been handled, or
      nothing has changed and nothing is pending there; where nothing was pending nothing changes. */
  ghost predicate Progress(a: State, b: State, ids: seq<nat>) {
    && |a.log| <= |b.log|
    && (forall n | n in b.log :: n in a.log || n.obj in ids)
    && (|a.log| == |b.log| ==> a == b && Idle(b, ids))
    && (Idle(a, ids) ==> a == b)
  }

  lemma Chain(a: State, b: State, c: State, ids: seq<nat>, ids': seq<nat>)
    requires Progress(a, b, ids) && Progress(b, c, ids')
    ensures Progress(a, c, ids + ids')
  {
    if Idle(a, ids + ids') {
      forall id | id in ids || id in ids' ensures id < |a.pending| && a.pending[id] == [] { assert id in ids + ids'; }
      assert Idle(a, ids) && Idle(b, ids');
    }
  }

  lemma {:induction false} RolesSnoc(ph: Phase, subs: seq<Sub>, roles: seq<Role>, role: Role)
    ensures VisitsRoles(ph, subs, roles + [role]) == VisitsRoles(ph, subs, roles) + VisitsRole(ph, subs, role)
    decreases roles
  {
    hide VisitsRole;
    if roles == [] {
      assert [] + [role] == [role] && [role][1..] == [];
    } else {
      assert (roles + [role])[1..] == roles[1..] + [role];
      RolesSnoc(ph, subs, roles[1..], role);
    }
  }

  function One(ph: Phase, s: Sub, role: Role): seq<nat> {
    if s.role == role then Visits(ph, s.obj) else []
  }

  lemma RoleCons(ph: Phase, subs: seq<Sub>, role: Role)
    requires subs != []
    ensures VisitsRole(ph, subs, role) == One(ph, subs[0], role) + VisitsRole(ph, subs[1..], role)
  {
    hide Visits;
  }

  lemma {:induction false} RoleSnoc(ph: Phase, subs: seq<Sub>, s: Sub, role: Role)
    ensures VisitsRole(ph, subs + [s], role) == VisitsRole(ph, subs, role) + One(ph, s, role)
    decreases subs
  {
    var all := subs + [s];
    RoleCons(ph, all, role);
    if subs == [] {
      assert all[1..] == [] && VisitsRole(ph, [], role) == [];
    } else {
      RoleCons(ph, subs, role);
      hide VisitsRole, One;
      assert all[1..] == subs[1..] + [s];
      RoleSnoc(ph, subs[1..], s, role);
    }
  }

  lemma {:induction false} RoleTake(ph: Phase, subs: seq<Sub>, role: Role, k: nat)
    requires k <= |subs|
    ensures VisitsRole(ph, subs[..k], role) <= VisitsRole(ph, subs, role)
    decreases |subs| - k
  {
    hide Visits;
    if k < |subs| {
      assert subs[..k + 1] == subs[..k] + [subs[k]];
      RoleSnoc(ph, subs[..k], subs[k], role);
      RoleTake(ph, subs, role, k + 1);
    } else {
      assert subs[..k] == subs;
    }
  }

  lemma SpliceReady(st: State, p: Program, roots: set<Node>, stale: set<Node>, o: nat)
    requires o < p.objects && Sized(st, p) && Inv(st, p, roots, stale, o, |st.pending[o]|) && Asked(st, p)
    ensures Inv(Splice(st, o), p, roots, stale, 0, 0) && Asked(Splice(st, o), p)
    ensures var t := Splice(st, o); t.log == st.log && t.pending[o] == [] && (st.pending[o] == [] ==> t == st)
  {
    assert [] + st.done[o] == st.done[o];
    SpliceKeeps(st, p, roots, stale, o);
    AnyObject(Splice(st, o), p, roots, stale, o, 0);
    hide Inv, Known;
  }

  lemma AtMost(st: State, p: Program, roots: set<Node>, stale: set<Node>)
    requires Inv(st, p, roots, stale, 0, 0)
    ensures |st.log| <= |p.calls.Keys|
  {
    forall n | n in st.log ensures n in p.calls.Keys { assert Known(st, n); }
    DistinctSize(st.log, p.calls.Keys);
  }

  /** A round with something pending handles something. */
  lemma RoundMoves(a: State, b: State, p: Program, roots: set<Node>, stale: set<Node>, ids: seq<nat>)
    requires Inv(b, p, roots, stale, 0, 0) && a.counter != 0 && Progress(a, b, ids) && AllVisited(p, roots, stale, ids)
    ensures |a.log| < |b.log|
  {
    if |a.log| == |b.log| {
      TotalZero(b.pending);
      var o :| 0 <= o < |b.pending| && b.pending[o] != [];
      var n := Node(o, b.pending[o][0]);
      assert Known(b, n);
      OnlyThere(b.pending[o], b.done[o], 0);
      assert false;
    }
  }

  /** Where nothing is pending any more, everything needed has been handled. */
  lemma HandledIsVisited(st: State, p: Program, roots: set<Node>, stale: set<Node>, ids: seq<nat>)
    requires Inv(st, p, roots, stale, 0, 0) && Asked(st, p) && st.counter == 0
    requires forall n | n in st.log :: n.obj in ids
    ensures AllVisited(p, roots, stale, ids)
  {
    HandledIsLeast(st, p, roots, stale);
    hide Inv, Asked, Roots, Closed;
    forall n | n in p.calls && Needed(p, roots, stale, n)
      ensures n.obj in ids
    {
      assert n in Set(st.log);
    }
  }

  lemma NoneMissing(p: Program, roots: set<Node>, stale: set<Node>, log: seq<Node>)
    requires Least(p, roots, stale, Set(log)) && forall n | n in log :: n in p.calls
    ensures !SomeMissing(p, roots, stale)
  {
    forall n
      ensures !Missing(p, roots, stale, n)
    {
      if Needed(p, roots, stale, n) {
        assert n in Set(log);
      }
    }
  }

  lemma BeginMethod(st: State, p: Program, roots: set<Node>, stale: set<Node>, o: nat, i: nat)
    requires o < p.objects && Inv(st, p, roots, stale, o, i) && i < |st.pending[o]| && Asked(st, p)
    ensures var n := Node(o, st.pending[o][i]);
            && n in p.calls && Needed(p, roots, stale, n)
            && Inv(st.(log := st.log + [n]), p, roots, stale, o, i + 1)
            && AskedTo(st.(log := st.log + [n]), p, st.log, p.calls[n], 0)
  {
    HandleKeeps(st, p, roots, stale, o, i);
    hide Inv, Needed;
  }

  lemma AddStep(st: State, p: Program, roots: set<Node>, stale: set<Node>, o: nat, i: nat, log: seq<Node>, n: Node, j: nat)
    requires Inv(st, p, roots, stale, o, i) && o < p.objects && i <= |st.pending[o]|
    requires n in p.calls && Needed(p, roots, stale, n) && j < |p.calls[n]| && AskedTo(st, p, log, p.calls[n], j)
    ensures p.calls[n][j].obj < p.objects
    ensures Add(st, p, p.calls[n][j]).None? ==> SomeMissing(p, roots, stale)
    ensures Add(st, p, p.calls[n][j]).Some? ==>
              var t := Add(st, p, p.calls[n][j]).value;
              && Inv(t, p, roots, stale, o, i) && t.log == st.log && |st.pending[o]| <= |t.pending[o]|
              && AskedTo(t, p, log, p.calls[n], j + 1)
  {
    var c := p.calls[n][j];
    assert c in p.calls[n];
    NeededCall(p, roots, stale, n, c);
    AddKeeps(st, p, roots, stale, o, i, c);
    hide Inv, Needed, Known, Add;
    if Add(st, p, c).None? {
      assert Missing(p, roots, stale, c);
    } else {
      AskedToGrows(st, Add(st, p, c).value, p, log, p.calls[n], j);
    }
  }

  lemma AskedToGrows(st: State, t: State, p: Program, log: seq<Node>, calls: seq<Node>, j: nat)
    requires AskedTo(st, p, log, calls, j) && j < |calls| && Served(t, p, calls[j])
    requires forall m | Known(st, m) :: Known(t, m)
    ensures AskedTo(t, p, log, calls, j + 1)
  {
    hide Known;
    forall m, c | m in log && m in p.calls && c in p.calls[m]
      ensures Served(t, p, c)
    {
      assert Served(st, p, c);
    }
    forall i | 0 <= i < j + 1
      ensures Served(t, p, calls[i])
    {
      assert i < j ==> Served(st, p, calls[i]);
    }
  }

  lemma AskedAll(st: State, p: Program, log: seq<Node>, n: Node)
    requires n in p.calls && AskedTo(st, p, log, p.calls[n], |p.calls[n]|) && st.log == log + [n]
    ensures Asked(st, p)
  {
    hide Known;
    forall m, c | m in st.log && m in p.calls && c in p.calls[m] && !p.Dropped(c)
      ensures Known(st, c)
    {
      if m == n {
        var i :| 0 <= i < |p.calls[n]| && p.calls[n][i] == c;
        assert Served(st, p, p.calls[n][i]);
      } else {
        assert Served(st, p, c);
      }
    }
  }
}
