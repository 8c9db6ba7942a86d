/** The address decoder of a bank: the access code of its registers, then, nested, one address window
    for every element of every group around the access code of the group's registers. */
module BankDecoder {
  import opened Common
  import opened OffsetExpr
  import opened Buckets
  import opened Decoder

  /** A group array of `count` elements; a group that is no array has 0. */
  datatype Group = Group(name: string, count: nat, groups: seq<Group>, registers: seq<Register>)

  datatype Bank = Bank(registers: seq<Register>, groups: seq<Group>)

  datatype Code = Registers(access: Access) | Window(start: int, end: int, body: seq<Code>)

  // ----- what is emitted -----

  /** The base and strides of a group are those of its first register, or else of its first group. */
  function MapInfo(g: Group): Option<Linear> {
    if g.registers != [] then Some(g.registers[0].info)
    else if g.groups != [] then MapInfo(g.groups[0])
    else None
  }

  /** Groups whose code can be emitted at all. */
  predicate Compiles(g: Group) {
    MapInfo(g).Some? && Classify(g.registers).Some? && forall h | h in g.groups :: Compiles(h)
  }

  function Length(info: Linear, outer: seq<int>): int {
    if |outer| < |info.interval| then info.interval[|outer|] else 0
  }

  /** The first address of element i of a group. */
  function Start(info: Linear, outer: seq<int>, i: int): int {
    Value(info, outer) + Length(info, outer) * i
  }

  function EmitWindows(g: Group, outer: seq<int>, i: nat, rs: nat): seq<Code>
    requires Compiles(g) && rs > 0
    decreases g, 2, g.count - i
  {
    if i >= g.count then []
    else
      var info := MapInfo(g).value;
      [Window(Start(info, outer, i), Start(info, outer, i) + Length(info, outer), EmitBody(g, outer + [i], rs))] +
      EmitWindows(g, outer, i + 1, rs)
  }

  /** The code inside of one window. */
  function EmitBody(g: Group, at: seq<int>, rs: nat): seq<Code>
    requires Compiles(g) && rs > 0
    decreases g, 1
  {
    EmitGroups(g.groups, at, rs) +
    if g.registers == [] then [] else [Registers(EmitAccess(g.registers, at, rs))]
  }

  function EmitGroups(gs: seq<Group>, at: seq<int>, rs: nat): seq<Code>
    requires rs > 0 && (forall h | h in gs :: Compiles(h))
    decreases gs
  {
    if gs == [] then [] else EmitWindows(gs[0], at, 0, rs) + EmitGroups(gs[1..], at, rs)
  }

  predicate BankCompiles(b: Bank) {
    Classify(b.registers).Some? && forall h | h in b.groups :: Compiles(h)
  }

  function EmitBank(b: Bank, rs: nat): seq<Code>
    requires rs > 0 && BankCompiles(b)
  {
    [Registers(EmitAccess(b.registers, [], rs))] + EmitGroups(b.groups, [], rs)
  }

  // ----- what the emitted code does -----

  /** Access code that finds nothing, and windows beside the offset, go on with what follows. */
  function Run(codes: seq<Code>, o: nat, size: nat, rs: nat): Reply
    requires rs > 0
    decreases codes
  {
    if codes == [] then Miss
    else
      var r := RunCode(codes[0], o, size, rs);
      if r.Miss? then Run(codes[1..], o, size, rs) else r
  }

  function RunCode(c: Code, o: nat, size: nat, rs: nat): Reply
    requires rs > 0
    decreases c
  {
    if c.Registers? then RunAccess(c.access, o, size, rs)
    else if c.start <= o < c.end then Run(c.body, o, size, rs)
    else Miss
  }

  // ----- the registers of a bank -----

  /** `idx` is an index vector of the register inside of the group under the indices `outer`. */
  predicate InGroup(g: Group, outer: seq<int>, r: Register, idx: seq<int>)
    decreases g, 2
  {
    && |outer| < |idx| && idx[..|outer|] == outer && 0 <= idx[|outer|] < g.count
    && InBody(g, idx[..|outer| + 1], r, idx)
  }

  predicate InBody(g: Group, at: seq<int>, r: Register, idx: seq<int>)
    decreases g, 1
  {
    (r in g.registers && Indexed(r, at, idx)) || InGroups(g.groups, at, r, idx)
  }

  predicate InGroups(gs: seq<Group>, at: seq<int>, r: Register, idx: seq<int>)
    decreases gs
  {
    gs != [] && (InGroup(gs[0], at, r, idx) || InGroups(gs[1..], at, r, idx))
  }

  predicate InBank(b: Bank, r: Register, idx: seq<int>) {
    (r in b.registers && Indexed(r, [], idx)) || InGroups(b.groups, [], r, idx)
  }

  predicate InWindow(g: Group, outer: seq<int>, i: int, o: int)
    requires MapInfo(g).Some?
  {
    var info := MapInfo(g).value;
    Start(info, outer, i) <= o < Start(info, outer, i) + Length(info, outer)
  }

  /** As InGroup, and in the windows of all groups on the way, whose bounds follow the first register of each. */
  predicate ThroughGroup(g: Group, outer: seq<int>, r: Register, idx: seq<int>, o: int)
    decreases g, 2
  {
    && |outer| < |idx| && idx[..|outer|] == outer && 0 <= idx[|outer|] < g.count
    && MapInfo(g).Some? && InWindow(g, outer, idx[|outer|], o)
    && ThroughBody(g, idx[..|outer| + 1], r, idx, o)
  }

  predicate ThroughBody(g: Group, at: seq<int>, r: Register, idx: seq<int>, o: int)
    decreases g, 1
  {
    (r in g.registers && Indexed(r, at, idx)) || ThroughGroups(g.groups, at, r, idx, o)
  }

  predicate ThroughGroups(gs: seq<Group>, at: seq<int>, r: Register, idx: seq<int>, o: int)
    decreases gs
  {
    gs != [] && (ThroughGroup(gs[0], at, r, idx, o) || ThroughGroups(gs[1..], at, r, idx, o))
  }

  predicate ThroughBank(b: Bank, r: Register, idx: seq<int>, o: int) {
    (r in b.registers && Indexed(r, [], idx)) || ThroughGroups(b.groups, [], r, idx, o)
  }

  /** Every list can be emitted for every index vector around it. */
  predicate Listed(g: Group, outer: seq<int>, rs: nat)
    requires rs > 0
    decreases g, 2
  {
    forall i | 0 <= i < g.count :: ListedAt(g, outer + [i], rs)
  }

  predicate ListedAt(g: Group, at: seq<int>, rs: nat)
    requires rs > 0
    decreases g, 1
  {
    Emittable(g.registers, at, rs) && AllListed(g.groups, at, rs)
  }

  predicate AllListed(gs: seq<Group>, at: seq<int>, rs: nat)
    requires rs > 0
    decreases gs
  {
    gs != [] ==> Listed(gs[0], at, rs) && AllListed(gs[1..], at, rs)
  }

  // ----- runs -----

  lemma {:induction false} RunAppend(a: seq<Code>, b: seq<Code>, o: nat, size: nat, rs: nat)
    requires rs > 0
    ensures Run(a + b, o, size, rs) == if Run(a, o, size, rs).Miss? then Run(b, o, size, rs) else Run(a, o, size, rs)
  {
    if a == [] {
      assert a + b == b;
    } else {
      assert (a + b)[1..] == a[1..] + b;
      RunAppend(a[1..], b, o, size, rs);
    }
  }

  lemma RunOne(c: Code, o: nat, size: nat, rs: nat)
    requires rs > 0
    ensures Run([c], o, size, rs) == RunCode(c, o, size, rs)
  {
    assert [c][1..] == [];
  }

  /** What one run says about one register under one index vector: it is missed only if it does not
      cover the offset. */
  predicate Spares(a: Reply, r: Register, idx: seq<int>, o: nat, rs: nat)
    requires rs > 0
  {
    a.Miss? ==> !Covers(r, idx, o, rs)
  }

  lemma {:induction false} BodyFinds(g: Group, at: seq<int>, o: nat, size: nat, rs: nat)
    requires Compiles(g) && rs > 0 && ListedAt(g, at, rs)
    ensures var a := Run(EmitBody(g, at, rs), o, size, rs);
            && !a.Trap?
            && (a.Hit? ==> ThroughBody(g, at, a.reg, a.idx, o) && Covers(a.reg, a.idx, o, rs))
            && (a.Hit? ==> a == ReplyFor(a.reg, a.idx, o, size))
            && (forall r, idx | ThroughBody(g, at, r, idx, o) :: Spares(a, r, idx, o, rs))
    decreases g, 1
  {
    var inner := EmitGroups(g.groups, at, rs);
    GroupsFind(g.groups, at, o, size, rs);
    AccessFinds(g.registers, at, rs, o, size);
    hide RunAccess, EmitAccess, ReplyFor, Emittable, AllListed, Covers, Compiles, Classify, EmitGroups, ThroughGroups, Indexed;
    if g.registers == [] {
      assert EmitBody(g, at, rs) == inner;
    } else {
      var own := Registers(EmitAccess(g.registers, at, rs));
      RunAppend(inner, [own], o, size, rs);
      RunOne(own, o, size, rs);
    }
    hide Run;
  }

  lemma {:induction false} GroupsFind(gs: seq<Group>, at: seq<int>, o: nat, size: nat, rs: nat)
    requires rs > 0 && (forall h | h in gs :: Compiles(h)) && AllListed(gs, at, rs)
    ensures var a := Run(EmitGroups(gs, at, rs), o, size, rs);
            && !a.Trap?
            && (a.Hit? ==> ThroughGroups(gs, at, a.reg, a.idx, o) && Covers(a.reg, a.idx, o, rs))
            && (a.Hit? ==> a == ReplyFor(a.reg, a.idx, o, size))
            && (forall r, idx | ThroughGroups(gs, at, r, idx, o) :: Spares(a, r, idx, o, rs))
    decreases gs
  {
    if gs != [] {
      WindowsFind(gs[0], at, 0, o, size, rs);
      GroupsFind(gs[1..], at, o, size, rs);
      RunAppend(EmitWindows(gs[0], at, 0, rs), EmitGroups(gs[1..], at, rs), o, size, rs);
      hide Run, EmitWindows, Covers, Compiles, Listed, ReplyFor;
      forall r, idx | ThroughGroup(gs[0], at, r, idx, o) ensures idx[|at|] >= 0 {}
    }
  }

  /** The windows of a group select what is in them at all levels and covers the offset, and nothing else. */
  lemma {:induction false} WindowsFind(g: Group, outer: seq<int>, i: nat, o: nat, size: nat, rs: nat)
    requires Compiles(g) && rs > 0 && Listed(g, outer, rs)
    ensures var a := Run(EmitWindows(g, outer, i, rs), o, size, rs);
            && !a.Trap?
            && (a.Hit? ==> ThroughGroup(g, outer, a.reg, a.idx, o) && Covers(a.reg, a.idx, o, rs))
            && (a.Hit? ==> a == ReplyFor(a.reg, a.idx, o, size))
            && (forall r, idx | ThroughGroup(g, outer, r, idx, o) && idx[|outer|] >= i :: Spares(a, r, idx, o, rs))
    decreases g, 2, g.count - i
  {
    if i < g.count {
      var info := MapInfo(g).value;
      var w := Window(Start(info, outer, i), Start(info, outer, i) + Length(info, outer), EmitBody(g, outer + [i], rs));
      var rest := EmitWindows(g, outer, i + 1, rs);
      assert EmitWindows(g, outer, i, rs) == [w] + rest;
      assert ListedAt(g, outer + [i], rs);
      BodyFinds(g, outer + [i], o, size, rs);
      WindowsFind(g, outer, i + 1, o, size, rs);
      RunAppend([w], rest, o, size, rs);
      RunOne(w, o, size, rs);
      hide Run, Covers, Compiles, Listed, ReplyFor, EmitWindows, EmitBody, ListedAt;
      WindowIsThrough(g, outer, i, o);
      hide ThroughGroup, ThroughBody;
    }
  }

  lemma WindowIsThrough(g: Group, outer: seq<int>, i: int, o: int)
    requires 0 <= i < g.count && MapInfo(g).Some?
    ensures forall r, idx | ThroughGroup(g, outer, r, idx, o) ::
              |outer| < |idx| && (idx[|outer|] == i ==> ThroughBody(g, outer + [i], r, idx, o) && InWindow(g, outer, i, o))
    ensures InWindow(g, outer, i, o) ==>
              forall r, idx | ThroughBody(g, outer + [i], r, idx, o) :: ThroughGroup(g, outer, r, idx, o)
  {
    hide ThroughBody, MapInfo;
    forall r, idx | ThroughGroup(g, outer, r, idx, o)
      ensures |outer| < |idx| && (idx[|outer|] == i ==> ThroughBody(g, outer + [i], r, idx, o) && InWindow(g, outer, i, o))
    {
      assert idx[|outer|] == i ==> idx[..|outer| + 1] == outer + [i];
    }
    if InWindow(g, outer, i, o) {
      forall r, idx | ThroughBody(g, outer + [i], r, idx, o)
        ensures ThroughGroup(g, outer, r, idx, o)
      {
        BodyPrefix(g, outer + [i], r, idx, o);
        assert idx[..|outer|] == (outer + [i])[..|outer|] == outer && idx[|outer|] == i;
      }
    }
  }

  lemma {:induction false} BodyPrefix(g: Group, at: seq<int>, r: Register, idx: seq<int>, o: int)
    requires ThroughBody(g, at, r, idx, o)
    ensures |at| <= |idx| && idx[..|at|] == at
  {
    if r in g.registers && Indexed(r, at, idx) {
      assert idx[..|at|] == at;
    } else {
      GroupsPrefix(g.groups, at, r, idx, o);
    }
  }

  lemma {:induction false} GroupsPrefix(gs: seq<Group>, at: seq<int>, r: Register, idx: seq<int>, o: int)
    requires ThroughGroups(gs, at, r, idx, o)
    ensures |at| <= |idx| && idx[..|at|] == at
    decreases gs
  {
    if !ThroughGroup(gs[0], at, r, idx, o) {
      GroupsPrefix(gs[1..], at, r, idx, o);
    }
  }

  lemma {:induction false} ThroughIsIn(gs: seq<Group>, at: seq<int>, r: Register, idx: seq<int>, o: int)
    requires ThroughGroups(gs, at, r, idx, o)
    ensures InGroups(gs, at, r, idx)
    decreases gs
  {
    if ThroughGroup(gs[0], at, r, idx, o) {
      var g, inner := gs[0], idx[..|at| + 1];
      assert ThroughBody(g, inner, r, idx, o);
      if !(r in g.registers && Indexed(r, inner, idx)) {
        ThroughIsIn(g.groups, inner, r, idx, o);
      }
      assert InBody(g, inner, r, idx) && InGroup(g, at, r, idx);
    } else {
      ThroughIsIn(gs[1..], at, r, idx, o);
    }
  }

  /** A bank whose lists can be emitted. */
  predicate BankListed(b: Bank, rs: nat)
    requires rs > 0
  {
    Emittable(b.registers, [], rs) && AllListed(b.groups, [], rs)
  }

  /** No two registers, or elements of arrays or groups of registers, cover the same bus offset. */
  ghost predicate Disjoint(b: Bank, rs: nat)
    requires rs > 0
  {
    forall r, idx, r', idx', o: nat |
      InBank(b, r, idx) && InBank(b, r', idx') && Covers(r, idx, o, rs) && Covers(r', idx', o, rs) :: r == r' && idx == idx'
  }

  /** The decoder selects what covers the offset and lies in the windows around it, and nothing else. */
  lemma BankFinds(b: Bank, o: nat, size: nat, rs: nat)
    requires BankCompiles(b) && rs > 0 && BankListed(b, rs)
    ensures var a := Run(EmitBank(b, rs), o, size, rs);
            && !a.Trap?
            && (a.Hit? ==> ThroughBank(b, a.reg, a.idx, o) && InBank(b, a.reg, a.idx) && Covers(a.reg, a.idx, o, rs))
            && (a.Hit? ==> a == ReplyFor(a.reg, a.idx, o, size))
            && (forall r, idx | ThroughBank(b, r, idx, o) :: Spares(a, r, idx, o, rs))
  {
    var own := Registers(EmitAccess(b.registers, [], rs));
    AccessFinds(b.registers, [], rs, o, size);
    GroupsFind(b.groups, [], o, size, rs);
    RunAppend([own], EmitGroups(b.groups, [], rs), o, size, rs);
    RunOne(own, o, size, rs);
    var a := Run(EmitBank(b, rs), o, size, rs);
    if a.Hit? && ThroughGroups(b.groups, [], a.reg, a.idx, o) {
      ThroughIsIn(b.groups, [], a.reg, a.idx, o);
    }
    hide Run, RunAccess, EmitAccess, EmitGroups, ReplyFor, BankCompiles, Covers, Indexed, InGroups, ThroughGroups, AllListed;
  }

  /** Where several registers cover an offset: those of the bank itself come before those of groups,
      and in a group those of groups inside of it before its own. */
  lemma FirstWins(b: Bank, g: Group, at: seq<int>, o: nat, size: nat, rs: nat)
    requires BankCompiles(b) && Compiles(g) && rs > 0
    ensures Run(EmitBank(b, rs), o, size, rs) ==
            var own := RunAccess(EmitAccess(b.registers, [], rs), o, size, rs);
            if own.Miss? then Run(EmitGroups(b.groups, [], rs), o, size, rs) else own
    ensures Run(EmitBody(g, at, rs), o, size, rs) ==
            var inner := Run(EmitGroups(g.groups, at, rs), o, size, rs);
            if !inner.Miss? then inner
            else if g.registers == [] then Miss
            else RunAccess(EmitAccess(g.registers, at, rs), o, size, rs)
  {
    var own, mine := Registers(EmitAccess(b.registers, [], rs)), Registers(EmitAccess(g.registers, at, rs));
    RunOne(own, o, size, rs);
    RunOne(mine, o, size, rs);
    RunAppend([own], EmitGroups(b.groups, [], rs), o, size, rs);
    RunAppend(EmitGroups(g.groups, at, rs), if g.registers == [] then [] else [mine], o, size, rs);
    assert Run([], o, size, rs) == Miss;
    hide Run, RunAccess, EmitAccess, EmitGroups;
  }

  /** The decoder inverts the address function at an offset: it selects a register with its indices if
      and only if these cover the offset, and nothing if and only if nothing does. */
  ghost predicate Exact(b: Bank, o: nat, size: nat, rs: nat)
    requires BankCompiles(b) && rs > 0
  {
    var a := Run(EmitBank(b, rs), o, size, rs);
    && (forall r, idx :: a.Hit? && a.reg == r && a.idx == idx <==> InBank(b, r, idx) && Covers(r, idx, o, rs))
    && (a.Hit? ==> a == ReplyFor(a.reg, a.idx, o, size))
    && (a.Miss? <==> forall r, idx | InBank(b, r, idx) :: !Covers(r, idx, o, rs))
  }

  /** What covers the offset lies in all windows around it. */
  ghost predicate WindowsContain(b: Bank, o: nat, rs: nat)
    requires rs > 0
  {
    forall r, idx | InBank(b, r, idx) && Covers(r, idx, o, rs) :: ThroughBank(b, r, idx, o)
  }

  /** Without overlaps the decoder is exact at an offset if and only if the windows contain what is there. */
  lemma DecodesAt(b: Bank, o: nat, size: nat, rs: nat)
    requires BankCompiles(b) && rs > 0 && BankListed(b, rs) && Disjoint(b, rs)
    ensures Exact(b, o, size, rs) <==> WindowsContain(b, o, rs)
  {
    BankFinds(b, o, size, rs);
    hide Run, EmitBank, ReplyFor, BankListed, Covers, InBank, BankCompiles, ThroughBank;
    var a := Run(EmitBank(b, rs), o, size, rs);
    if WindowsContain(b, o, rs) {
      forall r, idx | InBank(b, r, idx) && Covers(r, idx, o, rs)
        ensures a.Hit? && a.reg == r && a.idx == idx
      {
        assert Spares(a, r, idx, o, rs);
      }
    }
  }

  /** Without overlaps the decoder is exact at all offsets if and only if every window contains what it should. */
  lemma BankDecodesExactly(b: Bank, size: nat, rs: nat)
    requires BankCompiles(b) && rs > 0 && BankListed(b, rs) && Disjoint(b, rs)
    ensures (forall o: nat :: Exact(b, o, size, rs)) <==> (forall o: nat :: WindowsContain(b, o, rs))
  {
    forall o: nat { DecodesAt(b, o, size, rs); }
    hide Exact, WindowsContain;
  }
}
