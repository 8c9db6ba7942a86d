/** The generator of the access code of a bank, over the one index vector that it reuses for all groups. */
module AccessGeneration {
  import opened Common
  import opened OffsetExpr
  import opened Buckets
  import opened Decoder
  import opened BankDecoder

  /** The index vector and the strides are long enough for a group under `levels` array levels. */
  predicate Storable(g: Group, levels: nat) {
    && levels + 1 < MAX_DEPTH
    && (forall r | r in g.registers :: |r.info.interval| == MAX_DEPTH)
    && (forall h | h in g.groups :: Storable(h, levels + 1))
  }

  lemma {:induction false} StorableInfo(g: Group, levels: nat)
    requires Storable(g, levels) && MapInfo(g).Some?
    ensures |MapInfo(g).value.interval| == MAX_DEPTH
  {
    if g.registers == [] {
      assert g.groups[0] in g.groups;
      StorableInfo(g.groups[0], levels + 1);
    }
  }

  /** The switch of SortCase, after the cases before i. */
  lemma {:induction false} SortCaseTail(cases: seq<Case>, i: nat, a: SlotAccess, rs: nat)
    requires rs > 0 && i <= |cases| && forall j | 0 <= j < i :: cases[j].slot != CDiv(a.reg.info.offset, rs)
    ensures SortCase(cases, a, rs) == cases[..i] + SortCase(cases[i..], a, rs)
    decreases i
  {
    hide CDiv;
    if i == 0 {
      assert cases[0..] == cases && cases[..0] == [];
    } else {
      SortCaseTail(cases[1..], i - 1, a, rs);
      var rest := SortCase(cases[i..], a, rs);
      assert cases[1..][i - 1..] == cases[i..] && cases[..i] == [cases[0]] + cases[1..][..i - 1];
      assert [cases[0]] + (cases[1..][..i - 1] + rest) == cases[..i] + rest;
    }
  }

  lemma NextBucket(b: seq<Bucket>, i: nat, outer: seq<int>, tests: seq<ArrayTest>)
    requires i < |b| && b[i].size != 0
    ensures tests + ArrayTests(b, i, outer) == (tests + TestsOf(b[i].items, outer)) + ArrayTests(b, i + 1, outer)
  {
    hide TestsOf;
  }

  lemma NoBucket(b: seq<Bucket>, i: nat, outer: seq<int>, tests: seq<ArrayTest>)
    requires i < |b| ==> b[i].size == 0
    ensures tests + ArrayTests(b, i, outer) == tests
  {
  }

  /** The window of element i of a group. */
  function ElementWindow(g: Group, outer: seq<int>, i: nat, rs: nat): Code
    requires Compiles(g) && rs > 0
  {
    var info := MapInfo(g).value;
    Window(Start(info, outer, i), Start(info, outer, i) + Length(info, outer), EmitBody(g, outer + [i], rs))
  }

  lemma NextWindow(g: Group, outer: seq<int>, i: nat, rs: nat, codes: seq<Code>)
    requires Compiles(g) && rs > 0 && i < g.count
    ensures codes + EmitWindows(g, outer, i, rs) ==
            (codes + [ElementWindow(g, outer, i, rs)]) + EmitWindows(g, outer, i + 1, rs)
  {
    hide Start, EmitBody, Classify;
  }

  class Generator {
    const loc: array<int>
    var sorted: seq<Case>

    constructor ()
      ensures loc.Length == MAX_DEPTH && fresh(loc)
    {
      loc := new int[MAX_DEPTH];
      sorted := [];
    }

    /** The address of the register under the current indices. */
    method RegCalOffset(r: Register, levels: nat) returns (offset: int)
      requires levels <= loc.Length && levels <= |r.info.interval|
      ensures offset == Base(r, loc[..levels])
    {
      offset := r.info.offset;
      var j := 0;
      while j < levels
        invariant 0 <= j <= levels
        invariant offset == r.info.offset + Dot(r.info.interval, loc[..j])
      {
        DotSnoc(r.info.interval, loc[..j], loc[j]);
        assert loc[..j + 1] == loc[..j] + [loc[j]];
        offset := offset + r.info.interval[j] * loc[j];
        j := j + 1;
      }
    }

    /** Adds a register to the list of cases. */
    method SortCaseOf(r: Register, levels: nat, rs: nat)
      requires rs > 0 && levels <= loc.Length && levels <= |r.info.interval|
      modifies this`sorted
      ensures sorted == SortCase(old(sorted), SlotOf(r, loc[..levels]), rs)
    {
      ghost var a := SlotOf(r, loc[..levels]);
      var base := RegCalOffset(r, levels);
      var i := 0;
      while i < |sorted|
        invariant 0 <= i <= |sorted| && sorted == old(sorted)
        invariant forall j | 0 <= j < i :: sorted[j].slot != CDiv(r.info.offset, rs)
      {
        if CDiv(r.info.offset, rs) == sorted[i].slot {
          SortCaseTail(sorted, i, a, rs);
          sorted := sorted[i := Case(sorted[i].slot, sorted[i].body + [SlotAccess(r, loc[..levels], base)])];
          return;
        }
        i := i + 1;
      }
      SortCaseTail(sorted, i, a, rs);
      assert sorted[..i] == sorted;
      sorted := sorted + [Case(CDiv(base, rs), [SlotAccess(r, loc[..levels], base)])];
    }

    /** The tests of one bucket. */
    method GenBucket(items: seq<Register>, levels: nat) returns (tests: seq<ArrayTest>)
      requires levels <= loc.Length && forall r | r in items :: levels < |r.info.interval|
      ensures tests == TestsOf(items, loc[..levels])
    {
      tests := [];
      var k := 0;
      while k < |items|
        invariant 0 <= k <= |items|
        invariant tests == TestsOf(items, loc[..levels])[..k]
      {
        var start := RegCalOffset(items[k], levels);
        tests := tests + [ArrayTest(items[k], loc[..levels], start, items[k].info.interval[levels])];
        k := k + 1;
      }
    }

    method GenRegisterArrayAccess(list: RegisterList, levels: nat) returns (tests: seq<ArrayTest>)
      requires list.Valid() && levels <= loc.Length
      requires forall b, r | b in list.Contents() && r in b.items :: levels < |r.info.interval|
      ensures tests == ArrayTests(list.Contents(), 1, loc[..levels])
    {
      hide TestsOf, ArrayTests;
      ghost var b, outer := list.Contents(), loc[..levels];
      tests := [];
      var i := 1;
      while i < list.sizes.Length
        invariant 1 <= i <= list.sizes.Length
        invariant tests + ArrayTests(b, i, outer) == ArrayTests(b, 1, outer)
      {
        assert b[i] == Bucket(list.sizes[i], list.items[i]) && b[i] in b;
        if list.sizes[i] == 0 {
          break;
        }
        var bucket := GenBucket(list.items[i], levels);
        NextBucket(b, i, outer, tests);
        tests := tests + bucket;
        i := i + 1;
      }
      NoBucket(b, i, outer, tests);
    }

    method GenRegisterSingleAccess(list: RegisterList, levels: nat, rs: nat) returns (cases: seq<Case>)
      requires list.Valid() && levels <= loc.Length && rs > 0
      requires forall b, r | b in list.Contents() && r in b.items :: levels < |r.info.interval|
      modifies this`sorted
      ensures cases == SortCases(list.Contents()[0].items, loc[..levels], rs)
    {
      var items := list.items[0];
      assert list.Contents()[0] == Bucket(list.sizes[0], items) && list.Contents()[0] in list.Contents();
      sorted := [];
      var k := 0;
      while k < |items|
        invariant 0 <= k <= |items|
        invariant sorted == SortCases(items[..k], loc[..levels], rs)
      {
        SortCaseOf(items[k], levels, rs);
        assert items[..k + 1][..k] == items[..k];
        k := k + 1;
      }
      assert items[..k] == items;
      cases := sorted;
    }

    method GenRegisterAccess(regs: seq<Register>, levels: nat, rs: nat) returns (a: Access)
      requires Classify(regs).Some? && levels < loc.Length && loc.Length == MAX_DEPTH && rs > 0
      requires forall r | r in regs :: |r.info.interval| == MAX_DEPTH
      modifies this`sorted
      ensures a == EmitAccess(regs, loc[..levels], rs)
    {
      var list := SortRegisterArray(regs);
      forall b, r | b in list.Contents() && r in b.items
        ensures r in regs
      {
        FromRegisters(regs, b, r);
      }
      var tests := GenRegisterArrayAccess(list, levels);
      var cases := GenRegisterSingleAccess(list, levels, rs);
      a := Access(tests, cases);
    }

    /** The first address of element i under the current indices. */
    method WindowStart(info: Linear, levels: nat, i: nat) returns (start: int)
      requires levels < loc.Length == |info.interval|
      ensures start == Start(info, loc[..levels], i)
    {
      start := info.offset;
      var j := 0;
      while j < levels
        invariant 0 <= j <= levels
        invariant start == info.offset + Dot(info.interval, loc[..j])
      {
        DotSnoc(info.interval, loc[..j], loc[j]);
        assert loc[..j + 1] == loc[..j] + [loc[j]];
        start := start + loc[j] * info.interval[j];
        j := j + 1;
      }
      start := start + info.interval[levels] * i;
    }

    /** The window of one element. */
    method GenWindow(g: Group, levels: nat, i: nat, rs: nat) returns (w: Code)
      requires Compiles(g) && Storable(g, levels) && loc.Length == MAX_DEPTH && rs > 0
      modifies this`sorted, loc
      ensures loc[..levels] == old(loc[..levels])
      ensures w == ElementWindow(g, loc[..levels], i, rs)
      decreases g, 1
    {
      StorableInfo(g, levels);
      var info := MapInfo(g).value;
      ghost var outer := loc[..levels];
      hide Start, EmitBody, MapInfo, Storable, Classify;
      var start := WindowStart(info, levels, i);
      loc[levels] := i;
      assert loc[..levels + 1] == outer + [i];
      var body := GenBody(g, levels + 1, rs);
      assert loc[..levels] == loc[..levels + 1][..levels] == outer;
      w := Window(start, start + info.interval[levels], body);
    }

    /** One window for every element of the group; only the indices inside of the group change. */
    method GenGroupAccess(g: Group, levels: nat, rs: nat) returns (codes: seq<Code>)
      requires Compiles(g) && Storable(g, levels) && loc.Length == MAX_DEPTH && rs > 0
      modifies this`sorted, loc
      ensures loc[..levels] == old(loc[..levels])
      ensures codes == EmitWindows(g, loc[..levels], 0, rs)
      decreases g, 2
    {
      ghost var outer := loc[..levels];
      codes := [];
      var i := 0;
      while i < g.count
        invariant 0 <= i <= g.count
        invariant loc[..levels] == outer
        invariant codes + EmitWindows(g, outer, i, rs) == EmitWindows(g, outer, 0, rs)
      {
        hide Storable, Compiles, ElementWindow, EmitWindows;
        var w := GenWindow(g, levels, i, rs);
        NextWindow(g, outer, i, rs, codes);
        codes := codes + [w];
        i := i + 1;
      }
    }

    method GenBody(g: Group, levels: nat, rs: nat) returns (codes: seq<Code>)
      requires Compiles(g) && 0 < levels && Storable(g, levels - 1) && loc.Length == MAX_DEPTH && rs > 0
      modifies this`sorted, loc
      ensures loc[..levels] == old(loc[..levels])
      ensures codes == EmitBody(g, loc[..levels], rs)
      decreases g, 0
    {
      codes := GenGroups(g.groups, levels, rs);
      if g.registers != [] {
        var a := GenRegisterAccess(g.registers, levels, rs);
        codes := codes + [Registers(a)];
      }
    }

    method GenGroups(gs: seq<Group>, levels: nat, rs: nat) returns (codes: seq<Code>)
      requires forall h | h in gs :: Compiles(h) && Storable(h, levels)
      requires loc.Length == MAX_DEPTH && rs > 0 && levels <= MAX_DEPTH
      modifies this`sorted, loc
      ensures loc[..levels] == old(loc[..levels])
      ensures codes == EmitGroups(gs, loc[..levels], rs)
      decreases gs
    {
      ghost var at := loc[..levels];
      codes := [];
      var k := 0;
      while k < |gs|
        invariant 0 <= k <= |gs|
        invariant loc[..levels] == at
        invariant codes + EmitGroups(gs[k..], at, rs) == EmitGroups(gs, at, rs)
      {
        var windows := GenGroupAccess(gs[k], levels, rs);
        assert gs[k..][1..] == gs[k + 1..];
        codes := codes + windows;
        k := k + 1;
      }
    }

    /** The whole decoder of a bank. */
    method GenBankAccess(b: Bank, rs: nat) returns (codes: seq<Code>)
      requires BankCompiles(b) && loc.Length == MAX_DEPTH && rs > 0
      requires forall r | r in b.registers :: |r.info.interval| == MAX_DEPTH
      requires forall h | h in b.groups :: Storable(h, 0)
      modifies this`sorted, loc
      ensures codes == EmitBank(b, rs)
    {
      var own := GenRegisterAccess(b.registers, 0, rs);
      var windows := GenGroups(b.groups, 0, rs);
      codes := [Registers(own)] + windows;
    }
  }

  /** Buckets hold nothing but registers of the list. */
  lemma {:induction false} FromRegisters(regs: seq<Register>, b: Bucket, r: Register)
    requires Classify(regs).Some? && b in Classify(regs).value && r in b.items
    ensures r in regs
  {
    if regs != [] {
      var front, last := regs[..|regs| - 1], regs[|regs| - 1];
      var before := Classify(front).value;
      var i :| 0 <= i < LIST_SZ && Classify(regs).value[i] == b;
      if r in before[i].items {
        FromRegisters(front, before[i], r);
      } else {
        assert r == last;
      }
    }
  }
}
