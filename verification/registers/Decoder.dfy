/** The access code of one list of registers: a test for every array element, then a switch on the
    register slot of the bus offset. */
module Decoder {
  import opened Common
  import opened Arithmetic
  import opened OffsetExpr
  import opened Buckets

  /** `outer` holds the indices of the groups around the register. */
  datatype ArrayTest = ArrayTest(reg: Register, outer: seq<int>, start: int, interval: int)

  datatype SlotAccess = SlotAccess(reg: Register, outer: seq<int>, base: int)

  datatype Case = Case(slot: int, body: seq<SlotAccess>)

  datatype Access = Access(arrays: seq<ArrayTest>, cases: seq<Case>)

  /** Integer division of C. */
  function CDiv(x: int, n: int): int
    requires n > 0
  {
    if x >= 0 then x / n else -(-x / n)
  }

  /** The address of a register under the indices around it, of its first element for an array. */
  function Base(r: Register, outer: seq<int>): int {
    Value(r.info, outer)
  }

  /** The distance of the elements of an array. */
  function Step(r: Register, outer: seq<int>): int {
    if |outer| < |r.info.interval| then r.info.interval[|outer|] else 0
  }

  // ----- what is emitted -----

  function TestOf(r: Register, outer: seq<int>): ArrayTest {
    ArrayTest(r, outer, Base(r, outer), Step(r, outer))
  }

  function TestsOf(regs: seq<Register>, outer: seq<int>): (ts: seq<ArrayTest>)
    ensures |ts| == |regs| && forall i | 0 <= i < |ts| :: ts[i] == TestOf(regs[i], outer)
  {
    seq(|regs|, i requires 0 <= i < |regs| => TestOf(regs[i], outer))
  }

  /** The buckets from i on, up to the first one that is not in use. */
  function ArrayTests(b: seq<Bucket>, i: nat, outer: seq<int>): seq<ArrayTest>
    decreases |b| - i
  {
    if i >= |b| || b[i].size == 0 then [] else TestsOf(b[i].items, outer) + ArrayTests(b, i + 1, outer)
  }

  function SlotOf(r: Register, outer: seq<int>): SlotAccess {
    SlotAccess(r, outer, Base(r, outer))
  }

  /** A register joins the first case whose label is the slot of its offset outside of all groups;
      without one it starts a case labelled with the slot of its address. */
  function SortCase(cases: seq<Case>, a: SlotAccess, rs: nat): seq<Case>
    requires rs > 0
  {
    if cases == [] then [Case(CDiv(a.base, rs), [a])]
    else if CDiv(a.reg.info.offset, rs) == cases[0].slot then [Case(cases[0].slot, cases[0].body + [a])] + cases[1..]
    else [cases[0]] + SortCase(cases[1..], a, rs)
  }

  function SortCases(regs: seq<Register>, outer: seq<int>, rs: nat): seq<Case>
    requires rs > 0
  {
    if regs == [] then []
    else SortCase(SortCases(regs[..|regs| - 1], outer, rs), SlotOf(regs[|regs| - 1], outer), rs)
  }

  function EmitAccess(regs: seq<Register>, outer: seq<int>, rs: nat): Access
    requires rs > 0 && Classify(regs).Some?
  {
    var b := Classify(regs).value;
    Access(ArrayTests(b, 1, outer), SortCases(b[0].items, outer, rs))
  }

  // ----- what the emitted code does -----

  /** Hit calls the access method of a register with the indices `idx` and a range of bits, and
      reports `ok`; Trap is a division by zero. */
  datatype Reply = Hit(reg: Register, idx: seq<int>, msb: int, lsb: int, ok: bool) | Miss | Trap

  const WORD := 0x1_0000_0000_0000_0000

  /** The unsigned number of bytes from o to the end of the register, at most the size asked for. */
  function Share(a: SlotAccess, o: nat, size: nat): nat {
    var rest := (a.base + a.reg.size - o) % WORD;
    if size < rest then size else rest
  }

  function Touch(a: SlotAccess, o: nat, size: nat): Reply {
    var lsb := (o - a.base) * 8 % 256;
    Hit(a.reg, a.outer, (lsb + Share(a, o, size) * 8) % 256, lsb, size == Share(a, o, size))
  }

  function RunArrays(ts: seq<ArrayTest>, o: nat, size: nat): Reply {
    if ts == [] then Miss
    else
      var t := ts[0];
      if t.start <= o <= t.start + (t.reg.count - 1) * t.interval then
        if t.interval == 0 then Trap
        else
          var i := (o - t.start) / t.interval;
          if 0 <= i < t.reg.count && o - i * t.interval - t.start == 0
          then Hit(t.reg, t.outer + [i], 31, 0, size == t.reg.size)
          else RunArrays(ts[1..], o, size)
      else RunArrays(ts[1..], o, size)
  }

  function RunSwitch(cases: seq<Case>, o: nat, size: nat, rs: nat): Reply
    requires rs > 0
  {
    if cases == [] then Miss
    else if o / rs == cases[0].slot && cases[0].body != [] then Touch(cases[0].body[0], o, size)
    else RunSwitch(cases[1..], o, size, rs)
  }

  function RunAccess(a: Access, o: nat, size: nat, rs: nat): Reply
    requires rs > 0
  {
    var r := RunArrays(a.arrays, o, size);
    if r.Miss? then RunSwitch(a.cases, o, size, rs) else r
  }

  // ----- the switch -----

  function SlotNumber(r: Register, outer: seq<int>, rs: nat): int
    requires rs > 0
  {
    CDiv(Base(r, outer), rs)
  }

  /** The registers of one slot, in order. */
  function AtSlot(regs: seq<Register>, outer: seq<int>, rs: nat, slot: int): seq<SlotAccess>
    requires rs > 0
  {
    if regs == [] then []
    else
      var r := regs[|regs| - 1];
      AtSlot(regs[..|regs| - 1], outer, rs, slot) + if SlotNumber(r, outer, rs) == slot then [SlotOf(r, outer)] else []
  }

  predicate Labelled(cases: seq<Case>, slot: int) {
    exists i | 0 <= i < |cases| :: cases[i].slot == slot
  }

  predicate DistinctLabels(cases: seq<Case>) {
    forall i, j | 0 <= i < j < |cases| :: cases[i].slot != cases[j].slot
  }

  /** Distinct labels, and under every label exactly the registers of that slot, in order. */
  predicate Partition(cases: seq<Case>, regs: seq<Register>, outer: seq<int>, rs: nat)
    requires rs > 0
  {
    DistinctLabels(cases) && Filled(cases, regs, outer, rs) && AllLabelled(cases, regs, outer, rs)
  }

  predicate Filled(cases: seq<Case>, regs: seq<Register>, outer: seq<int>, rs: nat)
    requires rs > 0
  {
    forall i | 0 <= i < |cases| :: cases[i].body != [] && cases[i].body == AtSlot(regs, outer, rs, cases[i].slot)
  }

  predicate AllLabelled(cases: seq<Case>, regs: seq<Register>, outer: seq<int>, rs: nat)
    requires rs > 0
  {
    forall r | r in regs :: Labelled(cases, SlotNumber(r, outer, rs))
  }

  /** The slot of the plain offset of a register is the slot of an earlier register if and only if
      the slot of its address is. */
  predicate Agrees(regs: seq<Register>, outer: seq<int>, rs: nat)
    requires rs > 0
  {
    forall i, j | 0 <= i < j < |regs| ::
      CDiv(regs[j].info.offset, rs) == SlotNumber(regs[i], outer, rs) <==>
      SlotNumber(regs[j], outer, rs) == SlotNumber(regs[i], outer, rs)
  }

  /** The place that SortCase changes. */
  function Joined(cases: seq<Case>, slot: int): (k: nat)
    ensures k <= |cases| && (forall i | 0 <= i < k :: cases[i].slot != slot)
    ensures k < |cases| ==> cases[k].slot == slot
  {
    if cases == [] || cases[0].slot == slot then 0 else 1 + Joined(cases[1..], slot)
  }

  lemma {:induction false} SortCaseAt(cases: seq<Case>, a: SlotAccess, rs: nat)
    requires rs > 0
    ensures var k := Joined(cases, CDiv(a.reg.info.offset, rs));
            SortCase(cases, a, rs) ==
            if k == |cases| then cases + [Case(CDiv(a.base, rs), [a])]
            else cases[k := Case(cases[k].slot, cases[k].body + [a])]
  {
    if cases != [] && cases[0].slot != CDiv(a.reg.info.offset, rs) {
      SortCaseAt(cases[1..], a, rs);
    }
  }

  lemma {:induction false} InAtSlot(regs: seq<Register>, outer: seq<int>, rs: nat, slot: int)
    requires rs > 0
    ensures forall r | r in regs && SlotNumber(r, outer, rs) == slot :: SlotOf(r, outer) in AtSlot(regs, outer, rs, slot)
    ensures forall a | a in AtSlot(regs, outer, rs, slot) ::
              a.reg in regs && SlotNumber(a.reg, outer, rs) == slot && a == SlotOf(a.reg, outer)
  {
    if regs != [] {
      InAtSlot(regs[..|regs| - 1], outer, rs, slot);
      assert forall r | r in regs :: r in regs[..|regs| - 1] || r == regs[|regs| - 1];
    }
  }

  lemma {:induction false} CasesAreFull(regs: seq<Register>, outer: seq<int>, rs: nat)
    requires rs > 0
    ensures forall c | c in SortCases(regs, outer, rs) :: c.body != []
  {
    if regs != [] {
      CasesAreFull(regs[..|regs| - 1], outer, rs);
      var r := regs[|regs| - 1];
      SortCaseAt(SortCases(regs[..|regs| - 1], outer, rs), SlotOf(r, outer), rs);
    }
  }

  /** The cases of a list, from those of all but its last register. */
  lemma SortCasesStep(regs: seq<Register>, outer: seq<int>, rs: nat)
    requires regs != [] && rs > 0
    ensures var r, cases := regs[|regs| - 1], SortCases(regs[..|regs| - 1], outer, rs);
            var k := Joined(cases, CDiv(r.info.offset, rs));
            && (forall c | c in cases :: c.body != [])
            && SortCases(regs, outer, rs) ==
               if k == |cases| then cases + [Case(SlotNumber(r, outer, rs), [SlotOf(r, outer)])]
               else cases[k := Case(cases[k].slot, cases[k].body + [SlotOf(r, outer)])]
  {
    SortCaseAt(SortCases(regs[..|regs| - 1], outer, rs), SlotOf(regs[|regs| - 1], outer), rs);
    CasesAreFull(regs[..|regs| - 1], outer, rs);
  }

  /** The cases after one more register: at k its case, new or not. */
  predicate Grown(cases: seq<Case>, all: seq<Case>, k: nat, a: SlotAccess) {
    && k <= |cases| && |all| == (if k == |cases| then |cases| + 1 else |cases|)
    && (forall i | 0 <= i < |cases| :: all[i].slot == cases[i].slot)
    && (forall i | 0 <= i < |cases| && i != k :: all[i].body == cases[i].body)
    && all[k].body == (if k == |cases| then [] else cases[k].body) + [a]
  }

  lemma IsGrown(regs: seq<Register>, outer: seq<int>, rs: nat) returns (k: nat)
    requires regs != [] && rs > 0
    ensures var r, cases := regs[|regs| - 1], SortCases(regs[..|regs| - 1], outer, rs);
            && Grown(cases, SortCases(regs, outer, rs), k, SlotOf(r, outer))
            && (forall i | 0 <= i < |cases| :: cases[i].body != [])
            && (k == |cases| ==> SortCases(regs, outer, rs)[k].slot == SlotNumber(r, outer, rs))
            && (k == |cases| ==> !Labelled(cases, CDiv(r.info.offset, rs)))
            && (k < |cases| ==> cases[k].slot == CDiv(r.info.offset, rs))
  {
    var cases := SortCases(regs[..|regs| - 1], outer, rs);
    k := Joined(cases, CDiv(regs[|regs| - 1].info.offset, rs));
    SortCasesStep(regs, outer, rs);
    assert forall i | 0 <= i < |cases| :: cases[i] in cases;
    hide SortCases;
  }

  lemma LabelledGrows(cases: seq<Case>, all: seq<Case>, k: nat, regs: seq<Register>, outer: seq<int>, rs: nat)
    requires regs != [] && rs > 0
    requires var r := regs[|regs| - 1];
             Grown(cases, all, k, SlotOf(r, outer)) && all[k].slot == SlotNumber(r, outer, rs)
    requires AllLabelled(cases, regs[..|regs| - 1], outer, rs)
    ensures AllLabelled(all, regs, outer, rs)
  {
    forall q | q in regs
      ensures Labelled(all, SlotNumber(q, outer, rs))
    {
      if q in regs[..|regs| - 1] {
        assert Labelled(cases, SlotNumber(q, outer, rs));
        var i :| 0 <= i < |cases| && cases[i].slot == SlotNumber(q, outer, rs);
        assert all[i].slot == SlotNumber(q, outer, rs);
      } else {
        assert all[k].slot == SlotNumber(q, outer, rs);
      }
    }
  }

  /** One register more in its slot, none in the others. */
  lemma AtSlotStep(regs: seq<Register>, outer: seq<int>, rs: nat, slot: int)
    requires regs != [] && rs > 0
    ensures AtSlot(regs, outer, rs, slot) == AtSlot(regs[..|regs| - 1], outer, rs, slot) +
              if SlotNumber(regs[|regs| - 1], outer, rs) == slot then [SlotOf(regs[|regs| - 1], outer)] else []
  {
  }

  lemma FilledGrows(cases: seq<Case>, all: seq<Case>, k: nat, regs: seq<Register>, outer: seq<int>, rs: nat)
    requires regs != [] && rs > 0
    requires var r := regs[|regs| - 1];
             Grown(cases, all, k, SlotOf(r, outer)) && all[k].slot == SlotNumber(r, outer, rs)
    requires DistinctLabels(all) && Filled(cases, regs[..|regs| - 1], outer, rs)
    requires k == |cases| ==> AtSlot(regs[..|regs| - 1], outer, rs, all[k].slot) == []
    ensures Filled(all, regs, outer, rs)
  {
    forall i | 0 <= i < |all|
      ensures all[i].body != [] && all[i].body == AtSlot(regs, outer, rs, all[i].slot)
    {
      AtSlotStep(regs, outer, rs, all[i].slot);
      hide AtSlot, SlotNumber, SlotOf;
    }
  }

  /** A slot with a case is the slot of a register, and the other way around. */
  lemma LabelledHasRegister(cases: seq<Case>, regs: seq<Register>, outer: seq<int>, rs: nat, slot: int)
    requires rs > 0 && Partition(cases, regs, outer, rs)
    ensures Labelled(cases, slot) <==> exists i | 0 <= i < |regs| :: SlotNumber(regs[i], outer, rs) == slot
    ensures Labelled(cases, slot) <==> AtSlot(regs, outer, rs, slot) != []
  {
    InAtSlot(regs, outer, rs, slot);
    var here := AtSlot(regs, outer, rs, slot);
    if here != [] {
      assert here[0] in here;
      var i :| 0 <= i < |regs| && regs[i] == here[0].reg;
      assert Labelled(cases, SlotNumber(regs[i], outer, rs));
    }
    if exists i | 0 <= i < |regs| :: SlotNumber(regs[i], outer, rs) == slot {
      var i :| 0 <= i < |regs| && SlotNumber(regs[i], outer, rs) == slot;
      assert regs[i] in regs;
      assert SlotOf(regs[i], outer) in here;
    }
  }

  lemma PartitionGrows(regs: seq<Register>, outer: seq<int>, rs: nat)
    requires regs != [] && rs > 0 && Agrees(regs, outer, rs)
    requires Partition(SortCases(regs[..|regs| - 1], outer, rs), regs[..|regs| - 1], outer, rs)
    ensures Partition(SortCases(regs, outer, rs), regs, outer, rs)
  {
    var r, front := regs[|regs| - 1], regs[..|regs| - 1];
    var cases, all := SortCases(front, outer, rs), SortCases(regs, outer, rs);
    var raw, slot := CDiv(r.info.offset, rs), SlotNumber(r, outer, rs);
    var k := IsGrown(regs, outer, rs);
    hide SortCases, SlotNumber, SlotOf, CDiv, AtSlot;
    forall i | 0 <= i < |cases|
      ensures raw == cases[i].slot <==> slot == cases[i].slot
    {
      LabelledHasRegister(cases, front, outer, rs, cases[i].slot);
      var j :| 0 <= j < |front| && SlotNumber(front[j], outer, rs) == cases[i].slot;
      assert front[j] == regs[j];
    }
    LabelledHasRegister(cases, front, outer, rs, slot);
    assert DistinctLabels(all);
    FilledGrows(cases, all, k, regs, outer, rs);
    LabelledGrows(cases, all, k, regs, outer, rs);
  }

  lemma PartitionShrinks(regs: seq<Register>, outer: seq<int>, rs: nat)
    requires regs != [] && rs > 0
    requires Partition(SortCases(regs, outer, rs), regs, outer, rs)
    ensures Partition(SortCases(regs[..|regs| - 1], outer, rs), regs[..|regs| - 1], outer, rs)
    ensures forall q | q in regs[..|regs| - 1] ::
              CDiv(regs[|regs| - 1].info.offset, rs) == SlotNumber(q, outer, rs) <==>
              SlotNumber(regs[|regs| - 1], outer, rs) == SlotNumber(q, outer, rs)
  {
    var r, front := regs[|regs| - 1], regs[..|regs| - 1];
    var cases, all := SortCases(front, outer, rs), SortCases(regs, outer, rs);
    var raw, slot := CDiv(r.info.offset, rs), SlotNumber(r, outer, rs);
    var k := IsGrown(regs, outer, rs);
    LastSlot(all[k], regs, outer, rs);
    hide SortCases, SlotOf, CDiv, AtSlot;
    FilledShrinks(cases, all, k, regs, outer, rs);
    LabelledShrinks(cases, all, k, regs, outer, rs);
    hide SlotNumber, DistinctLabels, Filled;
    forall q | q in front
      ensures raw == SlotNumber(q, outer, rs) <==> slot == SlotNumber(q, outer, rs)
    {
      assert Labelled(cases, SlotNumber(q, outer, rs));
    }
  }

  lemma FilledShrinks(cases: seq<Case>, all: seq<Case>, k: nat, regs: seq<Register>, outer: seq<int>, rs: nat)
    requires regs != [] && rs > 0
    requires var r := regs[|regs| - 1];
             Grown(cases, all, k, SlotOf(r, outer)) && all[k].slot == SlotNumber(r, outer, rs)
    requires DistinctLabels(all) && Filled(all, regs, outer, rs)
    requires forall i | 0 <= i < |cases| :: cases[i].body != []
    ensures Filled(cases, regs[..|regs| - 1], outer, rs)
    ensures k == |cases| ==> AtSlot(regs[..|regs| - 1], outer, rs, all[k].slot) == []
  {
    forall i | 0 <= i < |cases|
      ensures cases[i].body == AtSlot(regs[..|regs| - 1], outer, rs, cases[i].slot)
    {
      AtSlotStep(regs, outer, rs, all[i].slot);
      if i == k {
        var here := AtSlot(regs, outer, rs, all[i].slot);
        assert cases[i].body == here[..|here| - 1] == AtSlot(regs[..|regs| - 1], outer, rs, cases[i].slot);
      }
    }
    AtSlotStep(regs, outer, rs, all[k].slot);
  }

  lemma LabelledShrinks(cases: seq<Case>, all: seq<Case>, k: nat, regs: seq<Register>, outer: seq<int>, rs: nat)
    requires regs != [] && rs > 0
    requires Grown(cases, all, k, SlotOf(regs[|regs| - 1], outer)) && AllLabelled(all, regs, outer, rs)
    requires k == |cases| ==> AtSlot(regs[..|regs| - 1], outer, rs, all[k].slot) == []
    ensures AllLabelled(cases, regs[..|regs| - 1], outer, rs)
    ensures k == |cases| ==> forall q | q in regs[..|regs| - 1] :: SlotNumber(q, outer, rs) != all[k].slot
  {
    var front := regs[..|regs| - 1];
    InAtSlot(front, outer, rs, all[k].slot);
    hide SlotNumber, SlotOf, AtSlot;
    forall q | q in front
      ensures Labelled(cases, SlotNumber(q, outer, rs))
    {
      assert Labelled(all, SlotNumber(q, outer, rs));
      var i :| 0 <= i < |all| && all[i].slot == SlotNumber(q, outer, rs);
      assert cases[i].slot == SlotNumber(q, outer, rs);
    }
  }

  /** A case that ends with the last register is the case of its slot. */
  lemma LastSlot(c: Case, regs: seq<Register>, outer: seq<int>, rs: nat)
    requires regs != [] && rs > 0 && c.body != [] && c.body == AtSlot(regs, outer, rs, c.slot)
    requires c.body[|c.body| - 1] == SlotOf(regs[|regs| - 1], outer)
    ensures c.slot == SlotNumber(regs[|regs| - 1], outer, rs)
  {
    InAtSlot(regs, outer, rs, c.slot);
    assert c.body[|c.body| - 1] in c.body;
  }

  /** The switch is a partition of the registers by slots, each under the label of its slot and
      with all labels distinct, if and only if the plain offsets agree with the addresses. */
  lemma {:induction false} SwitchIsPartition(regs: seq<Register>, outer: seq<int>, rs: nat)
    requires rs > 0
    ensures Partition(SortCases(regs, outer, rs), regs, outer, rs) <==> Agrees(regs, outer, rs)
  {
    if regs != [] {
      var front := regs[..|regs| - 1];
      SwitchIsPartition(front, outer, rs);
      if Partition(SortCases(regs, outer, rs), regs, outer, rs) {
        PartitionShrinks(regs, outer, rs);
        hide Partition, SortCases, CDiv, SlotNumber;
        forall i, j | 0 <= i < j < |regs|
          ensures CDiv(regs[j].info.offset, rs) == SlotNumber(regs[i], outer, rs) <==>
                  SlotNumber(regs[j], outer, rs) == SlotNumber(regs[i], outer, rs)
        {
          if j < |regs| - 1 {
            assert front[i] == regs[i] && front[j] == regs[j];
          } else {
            assert front[i] in front;
          }
        }
      }
      if Agrees(regs, outer, rs) {
        hide SortCases, CDiv, SlotNumber, Partition;
        assert Agrees(front, outer, rs);
        PartitionGrows(regs, outer, rs);
      }
    }
  }

  /** Outside of all groups it always is. */
  lemma BankAgrees(regs: seq<Register>, rs: nat)
    requires rs > 0
    ensures Agrees(regs, [], rs)
  {
  }

  /** The case that is run is that of the first register in the slot of the offset. */
  lemma {:induction false} RunSwitchAt(cases: seq<Case>, o: nat, size: nat, rs: nat)
    requires rs > 0 && (forall i | 0 <= i < |cases| :: cases[i].body != [])
    ensures RunSwitch(cases, o, size, rs) ==
            var k := Joined(cases, o / rs);
            if k == |cases| then Miss else Touch(cases[k].body[0], o, size)
  {
    if cases != [] {
      RunSwitchAt(cases[1..], o, size, rs);
    }
  }

  lemma SwitchTouchesFirst(regs: seq<Register>, outer: seq<int>, rs: nat, o: nat, size: nat)
    requires rs > 0 && Agrees(regs, outer, rs)
    ensures var here := AtSlot(regs, outer, rs, o / rs);
            RunSwitch(SortCases(regs, outer, rs), o, size, rs) == if here == [] then Miss else Touch(here[0], o, size)
  {
    var cases := SortCases(regs, outer, rs);
    SwitchIsPartition(regs, outer, rs);
    RunSwitchAt(cases, o, size, rs);
    InAtSlot(regs, outer, rs, o / rs);
    var k := Joined(cases, o / rs);
    LabelledHasRegister(cases, regs, outer, rs, o / rs);
    if k < |cases| {
      assert cases[k].slot == o / rs;
    }
  }

  // ----- array tests -----

  predicate Strikes(t: ArrayTest, i: int, o: int) {
    0 <= i < t.reg.count && o == t.start + i * t.interval
  }

  function Element(t: ArrayTest, o: int): int
    requires t.interval > 0
  {
    (o - t.start) / t.interval
  }

  lemma ElementOf(t: ArrayTest, i: int, o: int)
    requires t.interval > 0 && Strikes(t, i, o)
    ensures Element(t, o) == i && t.start <= o <= t.start + (t.reg.count - 1) * t.interval
  {
    Divide(i, 0, t.interval);
    TimesMonotone(i, t.reg.count - 1, t.interval);
  }

  /** The first test with an element at o. */
  lemma {:induction false} RunArraysFinds(ts: seq<ArrayTest>, o: nat, size: nat)
    requires forall t | t in ts :: t.interval > 0
    ensures RunArrays(ts, o, size).Miss? ==> forall t, i | t in ts :: !Strikes(t, i, o)
    ensures !RunArrays(ts, o, size).Miss? ==>
              exists t | t in ts :: Strikes(t, Element(t, o), o) &&
                RunArrays(ts, o, size) == Hit(t.reg, t.outer + [Element(t, o)], 31, 0, size == t.reg.size)
  {
    if ts != [] {
      var t := ts[0];
      RunArraysFinds(ts[1..], o, size);
      forall i | Strikes(t, i, o)
        ensures !RunArrays(ts, o, size).Miss?
      {
        ElementOf(t, i, o);
      }
      if Strikes(t, Element(t, o), o) {
        ElementOf(t, Element(t, o), o);
        assert t in ts;
      }
    }
  }

  /** The stop at the first unused bucket skips none: a test is there if and only if its register
      is in a bucket. */
  lemma {:induction false} TestsFrom(b: seq<Bucket>, used: nat, i: nat, outer: seq<int>, t: ArrayTest)
    requires 1 <= i <= used <= |b| && (forall k | 1 <= k < used :: b[k].size > 0) && (used < |b| ==> b[used].size == 0)
    ensures t in ArrayTests(b, i, outer) <==> t == TestOf(t.reg, outer) && exists k | i <= k < used :: t.reg in b[k].items
    decreases used - i
  {
    if i < used {
      TestsFrom(b, used, i + 1, outer, t);
      InTests(b[i].items, outer, t);
      hide TestOf, TestsOf;
    }
  }

  lemma InTests(regs: seq<Register>, outer: seq<int>, t: ArrayTest)
    ensures t in TestsOf(regs, outer) <==> t.reg in regs && t == TestOf(t.reg, outer)
  {
    if t.reg in regs && t == TestOf(t.reg, outer) {
      var i :| 0 <= i < |regs| && regs[i] == t.reg;
      assert TestsOf(regs, outer)[i] == t;
    }
  }

  lemma TestsAreArrays(regs: seq<Register>, outer: seq<int>, t: ArrayTest)
    requires 0 !in Sizes(regs) && |Sizes(regs)| < LIST_SZ && Classify(regs).Some?
    ensures t in ArrayTests(Classify(regs).value, 1, outer) <==>
            t.reg in regs && t.reg.mapped && t.reg.isArray && t == TestOf(t.reg, outer)
  {
    ClassificationIsExact(regs);
    var b, used := Classify(regs).value, 1 + |Sizes(regs)|;
    forall k | 1 <= k < used
      ensures b[k].size > 0
      ensures t.reg in b[k].items <==> t.reg in regs && t.reg.mapped && t.reg.isArray && t.reg.count == b[k].size
    {
      assert Holds(b[k], regs);
      InArrays(regs, b[k].size, t.reg);
    }
    if t.reg in regs && t.reg.mapped && t.reg.isArray {
      assert t.reg.count in Sizes(regs);
      assert Used(b, used, t.reg.count);
    }
    TestsFrom(b, used, 1, outer, t);
    hide ArrayTests, Sizes, TestOf, Classify;
  }

  // ----- the access code of a list -----

  /** What an access to a register reports: an array element is passed all bits and succeeds for
      accesses of its size; a scalar is passed those from the bus offset on. */
  function ReplyFor(r: Register, idx: seq<int>, o: nat, size: nat): Reply {
    if r.isArray then Hit(r, idx, 31, 0, size == r.size) else Touch(SlotOf(r, idx), o, size)
  }

  /** `idx` is an index vector of a register of the list under the indices `outer`. */
  predicate Indexed(r: Register, outer: seq<int>, idx: seq<int>) {
    r.mapped &&
    if r.isArray then |idx| == |outer| + 1 && idx[..|outer|] == outer && 0 <= idx[|outer|] < r.count else idx == outer
  }

  /** A bus offset is that of an array element, or in the slot of a scalar. */
  predicate Covers(r: Register, idx: seq<int>, o: nat, rs: nat)
    requires rs > 0
  {
    if r.isArray then o == Value(r.info, idx) else o / rs == CDiv(Value(r.info, idx), rs)
  }

  /** Lists that the emitter can sort, whose arrays have a stride. */
  predicate Emittable(regs: seq<Register>, outer: seq<int>, rs: nat)
    requires rs > 0
  {
    && 0 !in Sizes(regs) && |Sizes(regs)| < LIST_SZ
    && (forall r | r in regs && r.mapped && r.isArray :: Step(r, outer) > 0)
    && Agrees(Scalars(regs), outer, rs)
  }

  lemma {:induction false} DotSnoc(s: seq<int>, idx: seq<int>, i: int)
    ensures Dot(s, idx + [i]) == Dot(s, idx) + (if |idx| < |s| then s[|idx|] else 0) * i
  {
    if s != [] {
      if idx == [] {
        assert Dot(s[1..], []) == 0;
      } else {
        assert (idx + [i])[1..] == idx[1..] + [i];
        DotSnoc(s[1..], idx[1..], i);
      }
    }
  }

  lemma ElementAddress(r: Register, outer: seq<int>, i: int)
    ensures Value(r.info, outer + [i]) == Base(r, outer) + i * Step(r, outer)
  {
    DotSnoc(r.info.interval, outer, i);
  }

  /** The element of a test is covered if and only if the test strikes there. */
  lemma StrikesCovers(r: Register, outer: seq<int>, idx: seq<int>, o: nat, rs: nat)
    requires rs > 0 && r.isArray && r.mapped && |idx| == |outer| + 1 && idx[..|outer|] == outer
    ensures Strikes(TestOf(r, outer), idx[|outer|], o) <==> Indexed(r, outer, idx) && Covers(r, idx, o, rs)
  {
    assert idx == outer + [idx[|outer|]];
    ElementAddress(r, outer, idx[|outer|]);
  }

  lemma IndexedArray(r: Register, outer: seq<int>, idx: seq<int>)
    requires r.isArray && Indexed(r, outer, idx)
    ensures r.mapped && |idx| == |outer| + 1 && idx[..|outer|] == outer
  {
  }

  lemma ArraysFind(regs: seq<Register>, outer: seq<int>, rs: nat, o: nat, size: nat)
    requires rs > 0 && Emittable(regs, outer, rs)
    ensures Classify(regs).Some?
    ensures var a := RunArrays(ArrayTests(Classify(regs).value, 1, outer), o, size);
            && !a.Trap?
            && (a.Hit? ==> a.reg in regs && Indexed(a.reg, outer, a.idx) && Covers(a.reg, a.idx, o, rs))
            && (a.Hit? ==> a == ReplyFor(a.reg, a.idx, o, size))
            && (a.Miss? ==> forall r, idx | r in regs && r.isArray && Indexed(r, outer, idx) :: !Covers(r, idx, o, rs))
  {
    ClassificationIsExact(regs);
    var ts := ArrayTests(Classify(regs).value, 1, outer);
    forall t { TestsAreArrays(regs, outer, t); }
    hide ArrayTests, Classify, Sizes, Sorted, Agrees, Value, Indexed, Covers;
    forall t | t in ts ensures t.interval > 0 { assert t == TestOf(t.reg, outer); }
    RunArraysFinds(ts, o, size);
    hide RunArrays, Strikes, Element;
    var b := RunArrays(ts, o, size);
    if !b.Miss? {
      var t :| t in ts && Strikes(t, Element(t, o), o) && b == Hit(t.reg, t.outer + [Element(t, o)], 31, 0, size == t.reg.size);
      StrikesCovers(t.reg, outer, outer + [Element(t, o)], o, rs);
    } else {
      forall r, idx | r in regs && r.isArray && Indexed(r, outer, idx)
        ensures !Covers(r, idx, o, rs)
      {
        IndexedArray(r, outer, idx);
        StrikesCovers(r, outer, idx, o, rs);
        assert TestOf(r, outer) in ts;
      }
    }
  }

  lemma SwitchFinds(regs: seq<Register>, outer: seq<int>, rs: nat, o: nat, size: nat)
    requires rs > 0 && Agrees(Scalars(regs), outer, rs)
    ensures var a := RunSwitch(SortCases(Scalars(regs), outer, rs), o, size, rs);
            && !a.Trap?
            && (a.Hit? ==> a.reg in regs && Indexed(a.reg, outer, a.idx) && Covers(a.reg, a.idx, o, rs))
            && (a.Hit? ==> a == ReplyFor(a.reg, a.idx, o, size))
            && (a.Miss? ==> forall r, idx | r in regs && !r.isArray && Indexed(r, outer, idx) :: !Covers(r, idx, o, rs))
  {
    var scalars := Scalars(regs);
    SwitchTouchesFirst(scalars, outer, rs, o, size);
    InAtSlot(scalars, outer, rs, o / rs);
    hide Agrees, RunSwitch, SortCases, AtSlot, Scalars;
    var here := AtSlot(scalars, outer, rs, o / rs);
    if here != [] {
      assert here[0] in here;
      InScalars(regs, here[0].reg);
    } else {
      forall r, idx | r in regs && !r.isArray && Indexed(r, outer, idx)
        ensures !Covers(r, idx, o, rs)
      {
        InScalars(regs, r);
        assert SlotOf(r, outer) !in here;
      }
    }
  }

  /** The access code of a list selects a register and indices only if these cover the bus offset,
      and selects nothing only if no register of the list does. */
  lemma AccessFinds(regs: seq<Register>, outer: seq<int>, rs: nat, o: nat, size: nat)
    requires rs > 0 && Emittable(regs, outer, rs)
    ensures Classify(regs).Some?
    ensures var a := RunAccess(EmitAccess(regs, outer, rs), o, size, rs);
            && !a.Trap?
            && (a.Hit? ==> a.reg in regs && Indexed(a.reg, outer, a.idx) && Covers(a.reg, a.idx, o, rs))
            && (a.Hit? ==> a == ReplyFor(a.reg, a.idx, o, size))
            && (a.Miss? ==> forall r, idx | r in regs && Indexed(r, outer, idx) :: !Covers(r, idx, o, rs))
  {
    ClassificationIsExact(regs);
    assert Classify(regs).value[0].items == Scalars(regs);
    ArraysFind(regs, outer, rs, o, size);
    SwitchFinds(regs, outer, rs, o, size);
    hide ArrayTests, Classify, Sizes, RunArrays, SortCases, RunSwitch, Emittable, Sorted, Scalars, Indexed, Covers;
  }

  /** Inside of a register of at most 31 bytes the bits passed on are those from the bus offset to
      the end of the access or of the register, and success is reported if and only if the access
      ends within the register. */
  lemma TouchInside(a: SlotAccess, o: nat, size: nat)
    requires 0 <= a.base <= o < a.base + a.reg.size && a.reg.size <= 31
    ensures var r := Touch(a, o, size);
            && r.lsb == 8 * (o - a.base)
            && r.msb == r.lsb + 8 * (if o + size <= a.base + a.reg.size then size else a.base + a.reg.size - o)
            && (r.ok <==> o + size <= a.base + a.reg.size)
  {
    var d, rest := o - a.base, a.base + a.reg.size - o;
    assert (o - a.base) * 8 == 8 * d;
    Small(8 * d, 256);
    Small(rest, WORD);
    var share := if size < rest then size else rest;
    assert Share(a, o, size) == share;
    assert 8 * d + share * 8 == 8 * (d + share);
    Small(8 * d + share * 8, 256);
    hide Share;
  }

  lemma Small(x: nat, n: nat)
    requires x < n
    ensures x % n == x
  {
  }

  /** Behind a register that is shorter than its slot the unsigned rest wraps around, so that an
      access of any number of bytes on the bus reports success. */
  lemma TouchBehind(a: SlotAccess, o: nat, size: nat)
    requires 0 <= a.base && a.base + a.reg.size < o < WORD
    ensures Touch(a, o, size).ok <==> size <= WORD - (o - (a.base + a.reg.size))
  {
  }
}
