/** Layouts given by plain offsets and strides alone for which the address decoder is exact. */
module Layout {
  import opened Common
  import opened Arithmetic
  import opened OffsetExpr
  import opened Buckets
  import opened Decoder
  import opened BankDecoder

  /** With all the indices around it 0, element i of the register is at o. */
  predicate Occupies(r: Register, levels: nat, i: int, o: int, rs: nat)
    requires rs > 0
  {
    if r.isArray then levels < |r.info.interval| && 0 <= i < r.count && o == r.info.offset + i * r.info.interval[levels]
    else i == 0 && o / rs == r.info.offset / rs
  }

  /** A register between lo and hi that has the strides of the groups around it. */
  predicate Placed(r: Register, strides: seq<int>, lo: int, hi: int) {
    && |strides| < |r.info.interval| && r.info.interval[..|strides|] == strides
    && 0 <= lo <= r.info.offset < hi
    && (r.isArray ==>
          var step := r.info.interval[|strides|];
          r.count > 0 && step > 0 && r.info.offset + (r.count - 1) * step < hi)
  }

  ghost predicate Apart(r: Register, r': Register, levels: nat, rs: nat)
    requires rs > 0
  {
    forall i, i', o :: !(Occupies(r, levels, i, o, rs) && Occupies(r', levels, i', o, rs))
  }

  function First(g: Group): int {
    if MapInfo(g).Some? then MapInfo(g).value.offset else 0
  }

  function Span(g: Group, levels: nat): int {
    if MapInfo(g).Some? && levels < |MapInfo(g).value.interval| then MapInfo(g).value.interval[levels] else 0
  }

  /** From the first address of element 0 to the end of the last element. */
  predicate InExtent(g: Group, levels: nat, o: int) {
    First(g) <= o < First(g) + g.count * Span(g, levels)
  }

  /** A group between lo and hi whose stride covers everything inside of one element. */
  ghost predicate GroupFits(g: Group, strides: seq<int>, lo: int, hi: int, rs: nat)
    requires rs > 0
    decreases g, 1
  {
    var span := Span(g, |strides|);
    && MapInfo(g).Some? && |strides| < |MapInfo(g).value.interval| && MapInfo(g).value.interval[..|strides|] == strides
    && span > 0 && span % rs == 0 && First(g) % rs == 0
    && 0 <= lo <= First(g) && First(g) + g.count * span <= hi
    && BodyFits(g.groups, g.registers, strides + [span], First(g), First(g) + span, rs)
  }

  /** Registers and groups side by side between lo and hi. */
  ghost predicate BodyFits(gs: seq<Group>, regs: seq<Register>, strides: seq<int>, lo: int, hi: int, rs: nat)
    requires rs > 0
    decreases gs
  {
    && 0 !in Sizes(regs) && |Sizes(regs)| < LIST_SZ
    && (forall r | r in regs && r.mapped :: Placed(r, strides, lo, hi))
    && (forall r, r' | r in regs && r' in regs && r.mapped && r'.mapped && r != r' :: Apart(r, r', |strides|, rs))
    && SlotsDiffer(Scalars(regs), rs)
    && (forall i | 0 <= i < |gs| :: GroupFits(gs[i], strides, lo, hi, rs))
    && (forall i, j, o | 0 <= i < j < |gs| :: !(InExtent(gs[i], |strides|, o) && InExtent(gs[j], |strides|, o)))
    && (forall k, r, i, o | 0 <= k < |gs| && r in regs && r.mapped && Occupies(r, |strides|, i, o, rs) ::
          !InExtent(gs[k], |strides|, o))
  }

  /** One scalar per slot. */
  predicate SlotsDiffer(regs: seq<Register>, rs: nat)
    requires rs > 0
  {
    forall i, j | 0 <= i < j < |regs| :: CDiv(regs[i].info.offset, rs) != CDiv(regs[j].info.offset, rs)
  }

  // ----- arithmetic -----

  lemma {:induction false} DotPrefix(s: seq<int>, idx: seq<int>)
    requires |idx| <= |s|
    ensures Dot(s, idx) == Dot(s[..|idx|], idx)
  {
    if idx != [] {
      assert s[..|idx|][1..] == s[1..][..|idx| - 1];
      DotPrefix(s[1..], idx[1..]);
    }
  }

  predicate Indices(idx: seq<int>) {
    forall i | 0 <= i < |idx| :: idx[i] >= 0
  }

  /** Every stride is a multiple of the slot size and at least `span`. */
  predicate Strides(strides: seq<int>, span: int, rs: nat)
    requires rs > 0
  {
    forall i | 0 <= i < |strides| :: strides[i] >= span && strides[i] % rs == 0
  }

  lemma {:induction false} DotMultiple(strides: seq<int>, at: seq<int>, span: int, rs: nat)
    requires rs > 0 && span > 0 && Strides(strides, span, rs) && Indices(at) && |at| == |strides|
    ensures Dot(strides, at) % rs == 0 && (Dot(strides, at) == 0 || Dot(strides, at) >= span)
  {
    if at != [] {
      DotMultiple(strides[1..], at[1..], span, rs);
      MultipleOf(strides[0], at[0], rs);
      SumOfMultiples(strides[0] * at[0], Dot(strides[1..], at[1..]), rs);
      if at[0] > 0 {
        assert strides[0] * at[0] >= strides[0];
      }
    }
  }

  lemma MultipleOf(s: int, k: int, rs: nat)
    requires rs > 0 && s % rs == 0
    ensures (s * k) % rs == 0
  {
    var q := s / rs;
    assert s == q * rs;
    assert s * k == (q * k) * rs + 0;
    Divide(q * k, 0, rs);
  }

  lemma SumOfMultiples(a: int, b: int, rs: nat)
    requires rs > 0 && a % rs == 0 && b % rs == 0
    ensures (a + b) % rs == 0
  {
    assert a + b == (a / rs + b / rs) * rs + 0;
    Divide(a / rs + b / rs, 0, rs);
  }

  /** Moving by a multiple of the slot size moves the slot. */
  lemma ShiftSlot(x: int, d: int, rs: nat)
    requires rs > 0 && d % rs == 0
    ensures (x + d) / rs == x / rs + d / rs
  {
    assert x + d == (x / rs + d / rs) * rs + x % rs;
    Divide(x / rs + d / rs, x % rs, rs);
  }

  /** Slot boundaries do not separate addresses of one slot. */
  lemma Boundary(x: int, b: int, rs: nat)
    requires rs > 0 && b % rs == 0
    ensures x < b <==> x / rs < b / rs
  {
    var q, c := x / rs, b / rs;
    assert x == q * rs + x % rs && b == c * rs;
    if q < c {
      TimesMonotone(q + 1, c, rs);
    } else {
      TimesMonotone(c, q, rs);
    }
  }

  // ----- where things are -----

  lemma DotInner(strides: seq<int>, span: int, at: seq<int>, i: int)
    requires |at| == |strides|
    ensures Dot(strides + [span], at + [i]) == Dot(strides, at) + span * i
  {
    DotSnoc(strides + [span], at, i);
    DotPrefix(strides + [span], at);
    assert (strides + [span])[..|at|] == strides;
  }

  lemma AddressOf(info: Linear, strides: seq<int>, at: seq<int>)
    requires |at| == |strides| <= |info.interval| && info.interval[..|strides|] == strides
    ensures Value(info, at) == info.offset + Dot(strides, at)
  {
    DotPrefix(info.interval, at);
  }

  /** What the strides around a body contribute to the addresses in it. */
  ghost predicate Around(strides: seq<int>, at: seq<int>, lo: int, hi: int, rs: nat)
    requires rs > 0
  {
    && |at| == |strides| && Strides(strides, hi - lo, rs) && Indices(at)
    && 0 <= lo < hi && lo % rs == 0 && hi % rs == 0
  }

  lemma ElementBetween(first: int, i: int, count: int, step: int, hi: int)
    requires 0 <= i < count && step > 0 && first + (count - 1) * step < hi
    ensures first <= first + i * step < hi
  {
    TimesMonotone(0, i, step);
    TimesMonotone(i, count - 1, step);
  }

  lemma SameSlot(x: int, y: int, d: int, lo: int, hi: int, rs: nat)
    requires rs > 0 && d % rs == 0 && lo % rs == 0 && hi % rs == 0 && 0 <= lo <= x < hi && x + d >= 0
    requires (y + d) / rs == CDiv(x + d, rs)
    ensures y / rs == x / rs && lo <= y < hi
  {
    ShiftSlot(y, d, rs);
    ShiftSlot(x, d, rs);
    Boundary(x, lo, rs);
    Boundary(x, hi, rs);
    Boundary(y, lo, rs);
    Boundary(y, hi, rs);
  }

  lemma OwnPlace(r: Register, strides: seq<int>, lo: int, hi: int, rs: nat, at: seq<int>, idx: seq<int>, o: nat)
    requires rs > 0 && Placed(r, strides, lo, hi) && Around(strides, at, lo, hi, rs)
    requires Indexed(r, at, idx) && Covers(r, idx, o, rs)
    ensures Occupies(r, |strides|, if r.isArray then idx[|at|] else 0, o - Dot(strides, at), rs)
    ensures lo <= o - Dot(strides, at) < hi
  {
    if r.isArray {
      OwnElement(r, strides, lo, hi, at, idx);
    } else {
      OwnScalar(r, strides, lo, hi, rs, at, o);
    }
  }

  lemma OwnElement(r: Register, strides: seq<int>, lo: int, hi: int, at: seq<int>, idx: seq<int>)
    requires r.isArray && Placed(r, strides, lo, hi) && |at| == |strides| && Indexed(r, at, idx)
    ensures var i, at0 := idx[|at|], Value(r.info, idx) - Dot(strides, at);
            at0 == r.info.offset + i * r.info.interval[|strides|] && lo <= at0 < hi
  {
    AddressOf(r.info, strides, at);
    hide Dot, Value;
    var i := idx[|at|];
    assert idx == at + [i];
    ElementAddress(r, at, i);
    ElementBetween(r.info.offset, i, r.count, r.info.interval[|strides|], hi);
  }

  lemma OwnScalar(r: Register, strides: seq<int>, lo: int, hi: int, rs: nat, at: seq<int>, o: nat)
    requires rs > 0 && Placed(r, strides, lo, hi) && Around(strides, at, lo, hi, rs)
    requires o / rs == CDiv(Value(r.info, at), rs)
    ensures var y := o - Dot(strides, at); y / rs == r.info.offset / rs && lo <= y < hi
  {
    var d := Dot(strides, at);
    DotMultiple(strides, at, hi - lo, rs);
    AddressOf(r.info, strides, at);
    hide Dot, Value, Strides, Indices, CDiv;
    SameSlot(r.info.offset, o - d, d, lo, hi, rs);
  }

  lemma {:induction false} GroupsAt(gs: seq<Group>, at: seq<int>, r: Register, idx: seq<int>)
    ensures InGroups(gs, at, r, idx) <==> exists k | 0 <= k < |gs| :: InGroup(gs[k], at, r, idx)
    decreases gs
  {
    hide InGroup;
    if gs != [] {
      GroupsAt(gs[1..], at, r, idx);
      if k :| 0 <= k < |gs| && InGroup(gs[k], at, r, idx) {
        if k > 0 {
          assert gs[1..][k - 1] == gs[k];
        }
      }
    }
  }

  /** Around the elements of a group that has any. */
  lemma AroundInner(g: Group, strides: seq<int>, lo: int, hi: int, rs: nat, at: seq<int>, i: int)
    requires rs > 0 && GroupFits(g, strides, lo, hi, rs) && Around(strides, at, lo, hi, rs) && 0 <= i < g.count
    ensures var span := Span(g, |strides|);
            && Around(strides + [span], at + [i], First(g), First(g) + span, rs)
            && Dot(strides + [span], at + [i]) == Dot(strides, at) + span * i
            && Start(MapInfo(g).value, at, i) == First(g) + Dot(strides, at) + span * i
  {
    var span := Span(g, |strides|);
    TimesMonotone(1, g.count, span);
    SumOfMultiples(First(g), span, rs);
    DotInner(strides, span, at, i);
    AddressOf(MapInfo(g).value, strides, at);
    hide BodyFits, Dot, Value, MapInfo;
    forall k | 0 <= k < |strides + [span]|
      ensures (strides + [span])[k] >= span && (strides + [span])[k] % rs == 0
    {
    }
  }

  /** What is inside of a group is in the window of its element, and in the extent of the group. */
  lemma {:induction false} GroupPlace(g: Group, strides: seq<int>, lo: int, hi: int, rs: nat, at: seq<int>,
                                      r: Register, idx: seq<int>, o: nat)
    requires rs > 0 && GroupFits(g, strides, lo, hi, rs) && Around(strides, at, lo, hi, rs)
    requires InGroup(g, at, r, idx) && Covers(r, idx, o, rs)
    ensures InWindow(g, at, idx[|at|], o) && InExtent(g, |strides|, o - Dot(strides, at))
    decreases g, 1
  {
    var i, span := idx[|at|], Span(g, |strides|);
    assert idx[..|at| + 1] == at + [i];
    AroundInner(g, strides, lo, hi, rs, at, i);
    BodyPlace(g.groups, g.registers, strides + [span], First(g), First(g) + span, rs, at + [i], r, idx, o);
    hide Dot, Value, MapInfo, BodyFits, Covers, InBody, Indices, Strides;
    ElementInExtent(o - Dot(strides, at), First(g), i, g.count, span);
  }

  lemma ElementInExtent(x: int, first: int, i: int, count: int, span: int)
    requires 0 <= i < count && span > 0 && first <= x - span * i < first + span
    ensures first <= x < first + count * span
  {
    TimesMonotone(i + 1, count, span);
    TimesMonotone(0, i, span);
  }

  lemma {:induction false} BodyPlace(gs: seq<Group>, regs: seq<Register>, strides: seq<int>, lo: int, hi: int, rs: nat,
                                     at: seq<int>, r: Register, idx: seq<int>, o: nat)
    requires rs > 0 && BodyFits(gs, regs, strides, lo, hi, rs) && Around(strides, at, lo, hi, rs)
    requires (r in regs && Indexed(r, at, idx)) || InGroups(gs, at, r, idx)
    requires Covers(r, idx, o, rs)
    ensures lo <= o - Dot(strides, at) < hi
    decreases gs, 0
  {
    if r in regs && Indexed(r, at, idx) {
      OwnPlace(r, strides, lo, hi, rs, at, idx, o);
    } else {
      GroupsAt(gs, at, r, idx);
      var k :| 0 <= k < |gs| && InGroup(gs[k], at, r, idx);
      assert GroupFits(gs[k], strides, lo, hi, rs);
      GroupPlace(gs[k], strides, lo, hi, rs, at, r, idx, o);
    }
  }

  // ----- one register at most -----

  lemma SameElement(x: int, i: int, i': int, span: int)
    requires span > 0 && span * i <= x < span * i + span && span * i' <= x < span * i' + span
    ensures i == i'
  {
    if i < i' {
      TimesMonotone(i + 1, i', span);
    } else if i' < i {
      TimesMonotone(i' + 1, i, span);
    }
  }

  lemma {:induction false} GroupUnique(g: Group, strides: seq<int>, lo: int, hi: int, rs: nat, at: seq<int>,
                                       r: Register, idx: seq<int>, r': Register, idx': seq<int>, o: nat)
    requires rs > 0 && GroupFits(g, strides, lo, hi, rs) && Around(strides, at, lo, hi, rs)
    requires InGroup(g, at, r, idx) && Covers(r, idx, o, rs)
    requires InGroup(g, at, r', idx') && Covers(r', idx', o, rs)
    ensures r == r' && idx == idx'
    decreases g, 1
  {
    var i, i', span := idx[|at|], idx'[|at|], Span(g, |strides|);
    GroupPlace(g, strides, lo, hi, rs, at, r, idx, o);
    GroupPlace(g, strides, lo, hi, rs, at, r', idx', o);
    AroundInner(g, strides, lo, hi, rs, at, i);
    AroundInner(g, strides, lo, hi, rs, at, i');
    var x := o - Dot(strides, at) - First(g);
    assert span * i <= x < span * i + span && span * i' <= x < span * i' + span;
    SameElement(x, i, i', span);
    assert idx[..|at| + 1] == at + [i] == idx'[..|at| + 1];
    hide Dot, Value, MapInfo, Covers, InWindow, InExtent, Start, Around;
    BodyUnique(g.groups, g.registers, strides + [span], First(g), First(g) + span, rs, at + [i], r, idx, r', idx', o);
  }

  lemma {:induction false} BodyUnique(gs: seq<Group>, regs: seq<Register>, strides: seq<int>, lo: int, hi: int, rs: nat,
                                      at: seq<int>, r: Register, idx: seq<int>, r': Register, idx': seq<int>, o: nat)
    requires rs > 0 && BodyFits(gs, regs, strides, lo, hi, rs) && Around(strides, at, lo, hi, rs)
    requires (r in regs && Indexed(r, at, idx)) || InGroups(gs, at, r, idx)
    requires (r' in regs && Indexed(r', at, idx')) || InGroups(gs, at, r', idx')
    requires Covers(r, idx, o, rs) && Covers(r', idx', o, rs)
    ensures r == r' && idx == idx'
    decreases gs, 0
  {
    GroupsAt(gs, at, r, idx);
    GroupsAt(gs, at, r', idx');
    hide InGroup, InGroups, Covers, Dot, GroupFits, Indexed, Sizes, Around, SlotsDiffer;
    if r in regs && Indexed(r, at, idx) {
      if r' in regs && Indexed(r', at, idx') {
        OwnUnique(gs, regs, strides, lo, hi, rs, at, r, idx, r', idx', o);
      } else {
        OwnOutside(gs, regs, strides, lo, hi, rs, at, r, idx, o);
        InSomeExtent(gs, regs, strides, lo, hi, rs, at, r', idx', o);
        assert false;
      }
    } else if r' in regs && Indexed(r', at, idx') {
      OwnOutside(gs, regs, strides, lo, hi, rs, at, r', idx', o);
      InSomeExtent(gs, regs, strides, lo, hi, rs, at, r, idx, o);
      assert false;
    } else {
      var k :| 0 <= k < |gs| && InGroup(gs[k], at, r, idx);
      var k' :| 0 <= k' < |gs| && InGroup(gs[k'], at, r', idx');
      assert GroupFits(gs[k], strides, lo, hi, rs) && GroupFits(gs[k'], strides, lo, hi, rs);
      GroupPlace(gs[k], strides, lo, hi, rs, at, r, idx, o);
      GroupPlace(gs[k'], strides, lo, hi, rs, at, r', idx', o);
      assert k == k';
      GroupUnique(gs[k], strides, lo, hi, rs, at, r, idx, r', idx', o);
    }
  }

  lemma InSomeExtent(gs: seq<Group>, regs: seq<Register>, strides: seq<int>, lo: int, hi: int, rs: nat, at: seq<int>,
                     r: Register, idx: seq<int>, o: nat)
    requires rs > 0 && BodyFits(gs, regs, strides, lo, hi, rs) && Around(strides, at, lo, hi, rs)
    requires InGroups(gs, at, r, idx) && Covers(r, idx, o, rs)
    ensures exists k | 0 <= k < |gs| :: InExtent(gs[k], |strides|, o - Dot(strides, at))
  {
    GroupsAt(gs, at, r, idx);
    var k :| 0 <= k < |gs| && InGroup(gs[k], at, r, idx);
    assert GroupFits(gs[k], strides, lo, hi, rs);
    GroupPlace(gs[k], strides, lo, hi, rs, at, r, idx, o);
  }

  lemma OwnUnique(gs: seq<Group>, regs: seq<Register>, strides: seq<int>, lo: int, hi: int, rs: nat, at: seq<int>,
                  r: Register, idx: seq<int>, r': Register, idx': seq<int>, o: nat)
    requires rs > 0 && BodyFits(gs, regs, strides, lo, hi, rs) && Around(strides, at, lo, hi, rs)
    requires r in regs && Indexed(r, at, idx) && Covers(r, idx, o, rs)
    requires r' in regs && Indexed(r', at, idx') && Covers(r', idx', o, rs)
    ensures r == r' && idx == idx'
  {
    OwnPlace(r, strides, lo, hi, rs, at, idx, o);
    OwnPlace(r', strides, lo, hi, rs, at, idx', o);
    assert r != r' ==> Apart(r, r', |strides|, rs);
    assert Placed(r, strides, lo, hi);
    hide Dot, Covers, BodyFits, Around;
    assert r == r';
    if r.isArray {
      SameProduct(idx[|at|], idx'[|at|], r.info.interval[|strides|]);
      assert idx == at + [idx[|at|]] == idx';
    }
  }

  lemma SameProduct(i: int, i': int, n: int)
    requires n > 0 && i * n == i' * n
    ensures i == i'
  {
    SameElement(i * n, i, i', n);
  }

  /** Where a register of the body is, no group of the body is. */
  lemma OwnOutside(gs: seq<Group>, regs: seq<Register>, strides: seq<int>, lo: int, hi: int, rs: nat, at: seq<int>,
                   r: Register, idx: seq<int>, o: nat)
    requires rs > 0 && BodyFits(gs, regs, strides, lo, hi, rs) && Around(strides, at, lo, hi, rs)
    requires r in regs && Indexed(r, at, idx) && Covers(r, idx, o, rs)
    ensures forall k | 0 <= k < |gs| :: !InExtent(gs[k], |strides|, o - Dot(strides, at))
  {
    hide *;
    BodyPlaced(gs, regs, strides, lo, hi, rs, at, r, idx);
    OwnPlace(r, strides, lo, hi, rs, at, idx, o);
    OutsideGroups(gs, regs, strides, lo, hi, rs, r, if r.isArray then idx[|at|] else 0, o - Dot(strides, at));
  }

  lemma BodyPlaced(gs: seq<Group>, regs: seq<Register>, strides: seq<int>, lo: int, hi: int, rs: nat, at: seq<int>,
                   r: Register, idx: seq<int>)
    requires rs > 0 && BodyFits(gs, regs, strides, lo, hi, rs) && r in regs && Indexed(r, at, idx)
    ensures r.mapped && Placed(r, strides, lo, hi) && (r.isArray ==> |at| < |idx|)
  {
    hide GroupFits, Sizes, SlotsDiffer, Occupies, InExtent, Placed, Apart;
  }

  lemma OutsideGroups(gs: seq<Group>, regs: seq<Register>, strides: seq<int>, lo: int, hi: int, rs: nat,
                      r: Register, i: int, o: int)
    requires rs > 0 && BodyFits(gs, regs, strides, lo, hi, rs) && r in regs && r.mapped && Occupies(r, |strides|, i, o, rs)
    ensures forall k | 0 <= k < |gs| :: !InExtent(gs[k], |strides|, o)
  {
    hide GroupFits, Sizes, SlotsDiffer, Occupies, InExtent, Placed, Apart;
  }

  // ----- the layout of a bank -----

  lemma {:induction false} FitsCompiles(g: Group, strides: seq<int>, lo: int, hi: int, rs: nat)
    requires rs > 0 && GroupFits(g, strides, lo, hi, rs)
    ensures Compiles(g)
  {
    ClassificationIsExact(g.registers);
    var span := Span(g, |strides|);
    forall h | h in g.groups
      ensures Compiles(h)
    {
      var k :| 0 <= k < |g.groups| && g.groups[k] == h;
      assert GroupFits(g.groups[k], strides + [span], First(g), First(g) + span, rs);
      FitsCompiles(h, strides + [span], First(g), First(g) + span, rs);
    }
  }

  /** The scalars of a list, one per slot, are sorted right under all indices around them. */
  lemma FitsAgrees(regs: seq<Register>, strides: seq<int>, lo: int, hi: int, rs: nat, at: seq<int>)
    requires rs > 0 && Around(strides, at, lo, hi, rs) && SlotsDiffer(regs, rs)
    requires forall r | r in regs :: Placed(r, strides, lo, hi)
    ensures Agrees(regs, at, rs)
  {
    var d := Dot(strides, at);
    DotMultiple(strides, at, hi - lo, rs);
    forall i, j | 0 <= i < j < |regs|
      ensures CDiv(regs[j].info.offset, rs) == SlotNumber(regs[i], at, rs) <==>
              SlotNumber(regs[j], at, rs) == SlotNumber(regs[i], at, rs)
    {
      assert Placed(regs[i], strides, lo, hi) && Placed(regs[j], strides, lo, hi);
      AddressOf(regs[i].info, strides, at);
      AddressOf(regs[j].info, strides, at);
      ShiftSlot(regs[i].info.offset, d, rs);
      ShiftSlot(regs[j].info.offset, d, rs);
      Boundary(regs[j].info.offset, hi, rs);
      Boundary(regs[i].info.offset + d, hi, rs);
      hide Dot, Value, Around;
      assert CDiv(regs[i].info.offset, rs) != CDiv(regs[j].info.offset, rs);
    }
  }

  lemma FitsEmittable(gs: seq<Group>, regs: seq<Register>, strides: seq<int>, lo: int, hi: int, rs: nat, at: seq<int>)
    requires rs > 0 && BodyFits(gs, regs, strides, lo, hi, rs) && Around(strides, at, lo, hi, rs)
    ensures Emittable(regs, at, rs)
  {
    forall r | r in Scalars(regs)
      ensures Placed(r, strides, lo, hi)
    {
      InScalars(regs, r);
    }
    FitsAgrees(Scalars(regs), strides, lo, hi, rs, at);
    hide Agrees, SlotsDiffer, Sizes, Scalars, GroupFits;
    assert |at| == |strides|;
    forall r | r in regs && r.mapped && r.isArray
      ensures Step(r, at) > 0
    {
      assert Placed(r, strides, lo, hi);
    }
  }

  lemma {:induction false} FitsListed(g: Group, strides: seq<int>, lo: int, hi: int, rs: nat, at: seq<int>)
    requires rs > 0 && GroupFits(g, strides, lo, hi, rs) && Around(strides, at, lo, hi, rs)
    ensures Compiles(g) && Listed(g, at, rs)
    decreases g, 1
  {
    FitsCompiles(g, strides, lo, hi, rs);
    var span := Span(g, |strides|);
    forall i | 0 <= i < g.count
      ensures ListedAt(g, at + [i], rs)
    {
      AroundInner(g, strides, lo, hi, rs, at, i);
      var f := First(g);
      assert BodyFits(g.groups, g.registers, strides + [span], f, f + span, rs);
      FitsEmittable(g.groups, g.registers, strides + [span], f, f + span, rs, at + [i]);
      FitsAllListed(g.groups, strides + [span], f, f + span, rs, at + [i]);
    }
  }

  lemma {:induction false} FitsAllListed(gs: seq<Group>, strides: seq<int>, lo: int, hi: int, rs: nat, at: seq<int>)
    requires rs > 0 && Around(strides, at, lo, hi, rs)
    requires forall i | 0 <= i < |gs| :: GroupFits(gs[i], strides, lo, hi, rs)
    ensures (forall h | h in gs :: Compiles(h)) && AllListed(gs, at, rs)
    decreases gs, 0
  {
    hide GroupFits, Around, Listed, Compiles;
    if gs != [] {
      assert GroupFits(gs[0], strides, lo, hi, rs);
      FitsListed(gs[0], strides, lo, hi, rs, at);
      forall i | 0 <= i < |gs[1..]| ensures GroupFits(gs[1..][i], strides, lo, hi, rs) { assert gs[1..][i] == gs[i + 1]; }
      FitsAllListed(gs[1..], strides, lo, hi, rs, at);
      assert forall h | h in gs :: h == gs[0] || h in gs[1..];
    }
  }

  /** In a layout that fits, the windows contain what is inside of them, at every level. */
  lemma {:induction false} FitsThrough(gs: seq<Group>, regs: seq<Register>, strides: seq<int>, lo: int, hi: int, rs: nat,
                                       at: seq<int>, r: Register, idx: seq<int>, o: nat)
    requires rs > 0 && BodyFits(gs, regs, strides, lo, hi, rs) && Around(strides, at, lo, hi, rs)
    requires InGroups(gs, at, r, idx) && Covers(r, idx, o, rs)
    ensures ThroughGroups(gs, at, r, idx, o)
    decreases gs, 0
  {
    GroupsAt(gs, at, r, idx);
    var k :| 0 <= k < |gs| && InGroup(gs[k], at, r, idx);
    assert GroupFits(gs[k], strides, lo, hi, rs);
    GroupThrough(gs[k], strides, lo, hi, rs, at, r, idx, o);
    ThroughAt(gs, at, r, idx, o, k);
  }

  lemma {:induction false} GroupThrough(g: Group, strides: seq<int>, lo: int, hi: int, rs: nat, at: seq<int>,
                                        r: Register, idx: seq<int>, o: nat)
    requires rs > 0 && GroupFits(g, strides, lo, hi, rs) && Around(strides, at, lo, hi, rs)
    requires InGroup(g, at, r, idx) && Covers(r, idx, o, rs)
    ensures ThroughGroup(g, at, r, idx, o)
    decreases g, 1
  {
    var i, span, inner := idx[|at|], Span(g, |strides|), idx[..|at| + 1];
    GroupPlace(g, strides, lo, hi, rs, at, r, idx, o);
    if !(r in g.registers && Indexed(r, inner, idx)) {
      assert inner == at + [i];
      AroundInner(g, strides, lo, hi, rs, at, i);
      FitsThrough(g.groups, g.registers, strides + [span], First(g), First(g) + span, rs, inner, r, idx, o);
    }
  }

  lemma {:induction false} ThroughAt(gs: seq<Group>, at: seq<int>, r: Register, idx: seq<int>, o: int, k: nat)
    requires k < |gs| && ThroughGroup(gs[k], at, r, idx, o)
    ensures ThroughGroups(gs, at, r, idx, o)
    decreases gs
  {
    if k > 0 {
      ThroughAt(gs[1..], at, r, idx, o, k - 1);
    }
  }

  /** A bank of `size` bytes, a multiple of the slot size. */
  ghost predicate BankFits(b: Bank, size: nat, rs: nat)
    requires rs > 0
  {
    size > 0 && size % rs == 0 && BodyFits(b.groups, b.registers, [], 0, size, rs)
  }

  /** Mixed radix: when every stride covers the extent of the level inside of it, and the registers
      and groups side by side in one body do not overlap with all indices 0, the decoder is exact for
      all indices. */
  lemma LayoutDecodes(b: Bank, bankSize: nat, o: nat, size: nat, rs: nat)
    requires rs > 0 && BankFits(b, bankSize, rs)
    ensures BankCompiles(b) && Disjoint(b, rs) && Exact(b, o, size, rs)
  {
    ClassificationIsExact(b.registers);
    assert Around([], [], 0, bankSize, rs);
    FitsEmittable(b.groups, b.registers, [], 0, bankSize, rs, []);
    FitsAllListed(b.groups, [], 0, bankSize, rs, []);
    hide Around, BodyFits, Classify, Sizes, Emittable, AllListed, Compiles, Exact;
    forall r, idx, r', idx', x: nat | InBank(b, r, idx) && InBank(b, r', idx') && Covers(r, idx, x, rs) && Covers(r', idx', x, rs)
      ensures r == r' && idx == idx'
    {
      BodyUnique(b.groups, b.registers, [], 0, bankSize, rs, [], r, idx, r', idx', x);
    }
    forall r, idx | InBank(b, r, idx) && Covers(r, idx, o, rs)
      ensures ThroughBank(b, r, idx, o)
    {
      if !(r in b.registers && Indexed(r, [], idx)) {
        FitsThrough(b.groups, b.registers, [], 0, bankSize, rs, [], r, idx, o);
      }
    }
    DecodesAt(b, o, size, rs);
  }
}
