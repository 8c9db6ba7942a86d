/** The size of a bank, from the recorded offsets of its registers and the extents of its groups. */
module BankSize {

  /** `extent` is the size of a scalar, or the number of elements of an array times its first stride. */
  datatype Entry = Entry(isUndefined: bool, extent: nat)

  /** A group array: its offset, the length of an element and their number. */
  datatype GroupExtent = GroupExtent(offset: int, len: nat, count: nat)

  const UNSPECIFIED := -1

  /** The offset recorded for a register that comes after `o` bytes. */
  function Recorded(e: Entry, offset: int, o: int): int {
    if !e.isUndefined && offset == UNSPECIFIED then o else offset
  }

  /** The running offset after a register. */
  function After(e: Entry, offset: int, o: int): int {
    if e.isUndefined then o
    else
      var r := Recorded(e, offset, o);
      (if r > o then r else o) + e.extent
  }

  /** The running offset after the first n registers. */
  function Running(regs: seq<Entry>, offsets: seq<int>, n: nat): int
    requires n <= |regs| == |offsets|
  {
    if n == 0 then 0 else After(regs[n - 1], offsets[n - 1], Running(regs, offsets, n - 1))
  }

  lemma {:induction false} NeverDecreases(regs: seq<Entry>, offsets: seq<int>, m: nat, n: nat)
    requires m <= n <= |regs| == |offsets|
    ensures 0 <= Running(regs, offsets, m) <= Running(regs, offsets, n)
    decreases n
  {
    if m < n {
      NeverDecreases(regs, offsets, m, n - 1);
    } else if n > 0 {
      NeverDecreases(regs, offsets, n - 1, n - 1);
    }
  }

  function GroupEnd(g: GroupExtent): int {
    g.offset + g.len * g.count
  }

  function GroupsEnd(groups: seq<GroupExtent>): (m: int)
    ensures 0 <= m && forall g | g in groups :: GroupEnd(g) <= m
  {
    if groups == [] then 0
    else
      var m, e := GroupsEnd(groups[..|groups| - 1]), GroupEnd(groups[|groups| - 1]);
      if e > m then e else m
  }

  function Size(regs: seq<Entry>, offsets: seq<int>, groups: seq<GroupExtent>): int
    requires |regs| == |offsets|
  {
    var o := Running(regs, offsets, |regs|);
    if GroupsEnd(groups) > o then GroupsEnd(groups) else o
  }

  /** Every mapped register with an offset of its own, or with none specified, ends at or below the
      size of the bank, and so does every group. */
  lemma SizeIsBound(regs: seq<Entry>, offsets: seq<int>, groups: seq<GroupExtent>, i: nat)
    requires i < |regs| == |offsets| && !regs[i].isUndefined && (offsets[i] >= 0 || offsets[i] == UNSPECIFIED)
    ensures Recorded(regs[i], offsets[i], Running(regs, offsets, i)) + regs[i].extent <= Size(regs, offsets, groups)
    ensures forall g | g in groups :: GroupEnd(g) <= Size(regs, offsets, groups)
  {
    NeverDecreases(regs, offsets, i, i);
    NeverDecreases(regs, offsets, i + 1, |regs|);
  }

  lemma RecordedInside(regs: seq<Entry>, offsets: seq<int>, groups: seq<GroupExtent>, i: nat)
    requires i < |regs| == |offsets| && !regs[i].isUndefined && Recorded(regs[i], offsets[i], Running(regs, offsets, i)) >= 0
    ensures Recorded(regs[i], offsets[i], Running(regs, offsets, i)) + regs[i].extent <= Size(regs, offsets, groups)
  {
    SizeIsBound(regs, offsets, groups, i);
  }

  /** The bytes of the mapped registers from the j-th up to the n-th. */
  function Total(regs: seq<Entry>, j: nat, n: nat): nat
    requires j <= n <= |regs|
    decreases n
  {
    if j == n then 0 else Total(regs, j, n - 1) + if regs[n - 1].isUndefined then 0 else regs[n - 1].extent
  }

  /** A register with an offset of its own, together with all that follow it, reaches up to x. */
  predicate Reaches(regs: seq<Entry>, offsets: seq<int>, j: nat, n: nat, x: int)
    requires j < n <= |regs| == |offsets|
  {
    !regs[j].isUndefined && offsets[j] >= 0 && x <= offsets[j] + Total(regs, j, n)
  }

  /** The running offset is the largest sum of the bytes of the registers from some point on: from the
      first on, or from one with an offset of its own, counted from there. */
  lemma {:induction false} RunningIsLargest(regs: seq<Entry>, offsets: seq<int>, n: nat, x: int)
    requires n <= |regs| == |offsets|
    ensures x <= Running(regs, offsets, n) <==>
            x <= Total(regs, 0, n) || exists j | 0 <= j < n :: Reaches(regs, offsets, j, n, x)
    decreases n
  {
    if n > 0 {
      var last := regs[n - 1];
      var d := if last.isUndefined then 0 else last.extent;
      RunningIsLargest(regs, offsets, n - 1, x - d);
      NeverDecreases(regs, offsets, n - 1, n - 1);
      assert x <= Running(regs, offsets, n) <==>
             x - d <= Running(regs, offsets, n - 1)
             || (!last.isUndefined && offsets[n - 1] >= 0 && x - d <= offsets[n - 1]);
      LastReaches(regs, offsets, n - 1, n, x, x - d);
    }
  }

  lemma LastReaches(regs: seq<Entry>, offsets: seq<int>, m: nat, n: nat, x: int, y: int)
    requires n == m + 1 <= |regs| == |offsets|
    requires x - y == if regs[m].isUndefined then 0 else regs[m].extent
    ensures (exists j | 0 <= j < n :: Reaches(regs, offsets, j, n, x)) <==>
            (exists j | 0 <= j < m :: Reaches(regs, offsets, j, m, y))
            || (!regs[m].isUndefined && offsets[m] >= 0 && y <= offsets[m])
  {
    assert Total(regs, m, n) == Total(regs, m, m) + (x - y);
    assert forall j | 0 <= j < m :: Total(regs, j, n) == Total(regs, j, m) + (x - y);
    if j :| 0 <= j < n && Reaches(regs, offsets, j, n, x) {
      assert j < m ==> Reaches(regs, offsets, j, m, y);
    }
    if j :| 0 <= j < m && Reaches(regs, offsets, j, m, y) {
      assert Reaches(regs, offsets, j, n, x);
    }
    if !regs[m].isUndefined && offsets[m] >= 0 && y <= offsets[m] {
      assert Reaches(regs, offsets, m, n, x);
    }
  }

  // ----- the offsets that are filled in -----

  /** The offsets before and after: those of mapped registers that were not specified are filled in. */
  predicate Filled(regs: seq<Entry>, was: seq<int>, now: seq<int>) {
    && |regs| == |was| == |now|
    && forall i | 0 <= i < |regs| :: now[i] == Recorded(regs[i], was[i], Running(regs, was, i))
  }

  /** A filled-in offset is at or behind the end of every mapped register before it that has one. */
  lemma FilledBehind(regs: seq<Entry>, was: seq<int>, now: seq<int>, j: nat, i: nat)
    requires Filled(regs, was, now) && j < i < |regs| && !regs[i].isUndefined && was[i] == -1
    requires !regs[j].isUndefined && now[j] >= 0
    ensures now[j] + regs[j].extent <= now[i]
  {
    NeverDecreases(regs, was, j + 1, i);
    NeverDecreases(regs, was, j, j);
  }

  /** Registers without offsets that follow each other, with undefined ones between them, lie end to end. */
  lemma {:induction false} FilledEndToEnd(regs: seq<Entry>, was: seq<int>, now: seq<int>, i: nat, k: nat)
    requires Filled(regs, was, now) && i <= k < |regs| && !regs[i].isUndefined && !regs[k].isUndefined
    requires forall j | i <= j <= k && !regs[j].isUndefined :: was[j] == -1
    ensures now[k] == now[i] + Total(regs, i, k)
  {
    RunningFrom(regs, was, i, k);
    NeverDecreases(regs, was, i, i);
  }

  lemma {:induction false} RunningFrom(regs: seq<Entry>, was: seq<int>, i: nat, k: nat)
    requires i <= k <= |regs| == |was| && forall j | i <= j < k && !regs[j].isUndefined :: was[j] == -1
    ensures Running(regs, was, k) == Running(regs, was, i) + Total(regs, i, k)
    decreases k
  {
    if i < k {
      RunningFrom(regs, was, i, k - 1);
    }
  }

  /** Exactly: a filled-in offset is the largest sum of the bytes before it, counted from the start or
      from a register with an offset of its own. */
  lemma FilledOffset(regs: seq<Entry>, was: seq<int>, now: seq<int>, i: nat, x: int)
    requires Filled(regs, was, now) && i < |regs|
    ensures !regs[i].isUndefined && was[i] == -1 ==>
              (x <= now[i] <==> x <= Total(regs, 0, i) || exists j | 0 <= j < i :: Reaches(regs, was, j, i, x))
    ensures regs[i].isUndefined || was[i] != -1 ==> now[i] == was[i]
  {
    RunningIsLargest(regs, was, i, x);
    hide Reaches, Total, Running;
  }

  /** A register whose offset is an expression has another negative number recorded, and only its
      extent is counted. From its real offset `start` on it is inside of the bank if and only if the
      bytes of all registers, of those from some register with a plain offset on, or a group reach
      up to its end. */
  lemma ExpressionsAreNotPlaced(regs: seq<Entry>, offsets: seq<int>, groups: seq<GroupExtent>, i: nat, start: nat)
    requires i < |regs| == |offsets| && !regs[i].isUndefined && offsets[i] < UNSPECIFIED
    ensures var n, end := |regs|, start + regs[i].extent;
            end <= Size(regs, offsets, groups) <==>
            || end <= Total(regs, 0, n)
            || (exists j | 0 <= j < n && j != i :: Reaches(regs, offsets, j, n, end))
            || (exists g | g in groups :: end <= GroupEnd(g))
  {
    hide Running, GroupsEnd, Reaches, Total;
    var n, end := |regs|, start + regs[i].extent;
    RunningIsLargest(regs, offsets, n, end);
    NeverDecreases(regs, offsets, n, n);
    if end > 0 {
      GroupsEndIsLargest(groups, end);
    }
    OthersReach(regs, offsets, i, n, end);
    assert end <= Size(regs, offsets, groups) <==> end <= Running(regs, offsets, n) || end <= GroupsEnd(groups);
  }

  /** A register without a plain offset is none of those from which on another is reached. */
  lemma OthersReach(regs: seq<Entry>, offsets: seq<int>, i: nat, n: nat, x: int)
    requires i < n <= |regs| == |offsets| && offsets[i] < 0
    ensures (exists j | 0 <= j < n :: Reaches(regs, offsets, j, n, x)) <==>
            (exists j | 0 <= j < n && j != i :: Reaches(regs, offsets, j, n, x))
  {
    assert !Reaches(regs, offsets, i, n, x);
    hide Reaches;
    if j :| 0 <= j < n && Reaches(regs, offsets, j, n, x) {
      assert j != i;
    }
  }

  lemma {:induction false} GroupsEndIsLargest(groups: seq<GroupExtent>, x: int)
    requires x > 0
    ensures x <= GroupsEnd(groups) <==> exists g | g in groups :: x <= GroupEnd(g)
  {
    if groups != [] {
      var front, last := groups[..|groups| - 1], groups[|groups| - 1];
      GroupsEndIsLargest(front, x);
      assert last in groups && forall g | g in groups :: g in front || g == last;
    }
  }

  /** A bank with one register of 4 bytes at an expression with the value 0x100 has a size of 4. */
  lemma ExpressionBank()
    ensures var regs, offsets := [Entry(false, 4)], [-3];
            Size(regs, offsets, []) == 4 && !(0x100 + regs[0].extent <= Size(regs, offsets, []))
  {
    var regs, offsets := [Entry(false, 4)], [-3];
    assert Running(regs, offsets, 0) == 0;
    assert Running(regs, offsets, 1) == After(regs[0], offsets[0], 0) == 4;
  }

  method CalculateGroups(groups: seq<GroupExtent>) returns (m: int)
    ensures m == GroupsEnd(groups)
  {
    m := 0;
    var k := 0;
    while k < |groups|
      invariant 0 <= k <= |groups| && m == GroupsEnd(groups[..k])
    {
      assert groups[..k + 1][..k] == groups[..k];
      var end := groups[k].offset + groups[k].len * groups[k].count;
      if end > m {
        m := end;
      }
      k := k + 1;
    }
    assert groups[..k] == groups;
  }

  method AddRegister(e: Entry, offsets: array<int>, i: nat, offset: int) returns (next: int)
    requires i < offsets.Length
    modifies offsets
    ensures next == After(e, old(offsets[i]), offset) && offsets[i] == Recorded(e, old(offsets[i]), offset)
    ensures forall j | 0 <= j < offsets.Length && j != i :: offsets[j] == old(offsets[j])
  {
    next := offset;
    if !e.isUndefined {
      if offsets[i] == UNSPECIFIED {
        offsets[i] := offset;
      }
      if offsets[i] > next {
        next := offsets[i];
      }
      next := next + e.extent;
    }
  }

  method CalculateRegisters(regs: seq<Entry>, offsets: array<int>) returns (offset: int)
    requires offsets.Length == |regs|
    modifies offsets
    ensures offset == Running(regs, old(offsets[..]), |regs|)
    ensures forall i | 0 <= i < |regs| :: offsets[i] == Recorded(regs[i], old(offsets[i]), Running(regs, old(offsets[..]), i))
  {
    hide Recorded, After;
    ghost var was := offsets[..];
    var i := 0;
    offset := 0;
    while i < |regs|
      invariant 0 <= i <= |regs| && offset == Running(regs, was, i)
      invariant forall j | 0 <= j < i :: offsets[j] == Recorded(regs[j], was[j], Running(regs, was, j))
      invariant forall j | i <= j < |regs| :: offsets[j] == was[j]
    {
      offset := AddRegister(regs[i], offsets, i, offset);
      i := i + 1;
    }
  }

  /** Fills in unspecified offsets and computes the size. */
  method CalculateSize(regs: seq<Entry>, offsets: array<int>, groups: seq<GroupExtent>) returns (size: int)
    requires offsets.Length == |regs|
    modifies offsets
    ensures size == Size(regs, old(offsets[..]), groups)
    ensures Filled(regs, old(offsets[..]), offsets[..])
    ensures forall j, i | 0 <= j < i < |regs| && !regs[i].isUndefined && old(offsets[i]) == -1
                          && !regs[j].isUndefined && offsets[j] >= 0 ::
              offsets[j] + regs[j].extent <= offsets[i]
    ensures forall i | 0 <= i < |regs| && !regs[i].isUndefined && offsets[i] >= 0 :: offsets[i] + regs[i].extent <= size
    ensures forall g | g in groups :: g.offset + g.len * g.count <= size
  {
    hide Recorded, Running, GroupsEnd, Total;
    ghost var was := offsets[..];
    var offset := CalculateRegisters(regs, offsets);
    var groupOffset := CalculateGroups(groups);
    size := if groupOffset > offset then groupOffset else offset;
    ghost var now := offsets[..];
    assert Filled(regs, was, now);
    forall j, i | 0 <= j < i < |regs| && !regs[i].isUndefined && was[i] == -1 && !regs[j].isUndefined && now[j] >= 0
      ensures now[j] + regs[j].extent <= now[i]
    {
      FilledBehind(regs, was, now, j, i);
    }
    forall i | 0 <= i < |regs| && !regs[i].isUndefined && now[i] >= 0
      ensures now[i] + regs[i].extent <= size
    {
      RecordedInside(regs, was, groups, i);
    }
    forall g | g in groups
      ensures g.offset + g.len * g.count <= size
    {
      assert GroupEnd(g) <= GroupsEnd(groups);
    }
  }
}
