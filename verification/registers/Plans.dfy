/** Layouts drawn as a tree: for every group its first address and the length of an element, whatever
    the emitted windows make of them. */
module Plans {
  import opened Common
  import opened OffsetExpr
  import opened Buckets
  import opened Decoder
  import opened BankDecoder
  import opened Layout

  /** With all indices around it 0, the first element of a group begins at `first`, and every element
      has `span` bytes. */
  datatype Plan = Plan(first: int, span: int, inner: seq<Plan>)

  predicate InPlan(g: Group, plan: Plan, o: int) {
    plan.first <= o < plan.first + g.count * plan.span
  }

  /** The group is as it is drawn: its addresses are multiples of the slot size, its first register, or
      else its first group, begins where it begins, and in all of them an index of the group counts
      for its span. */
  ghost predicate Drawn(g: Group, plan: Plan, strides: seq<int>, rs: nat)
    requires rs > 0
    decreases g, 1
  {
    && plan.first >= 0 && plan.span > 0 && plan.first % rs == 0 && plan.span % rs == 0
    && (if g.registers != [] then
          var info := g.registers[0].info;
          info.offset == plan.first && |strides| < |info.interval| && info.interval[..|strides| + 1] == strides + [plan.span]
        else
          g.groups != [] && plan.inner != [] && plan.inner[0].first == plan.first)
    && DrawnBody(g.groups, g.registers, plan.inner, strides + [plan.span], plan.first, plan.first + plan.span, rs)
  }

  /** Registers and groups between lo and hi, side by side in any order. */
  ghost predicate DrawnBody(gs: seq<Group>, regs: seq<Register>, plans: seq<Plan>, strides: seq<int>, lo: int, hi: int, rs: nat)
    requires rs > 0
    decreases gs
  {
    && 0 !in Sizes(regs) && |Sizes(regs)| < LIST_SZ
    && (forall r | r in regs && r.mapped :: Placed(r, strides, lo, hi))
    && (forall r, r' | r in regs && r' in regs && r.mapped && r'.mapped && r != r' :: Layout.Apart(r, r', |strides|, rs))
    && SlotsDiffer(Scalars(regs), rs)
    && |plans| == |gs|
    && (forall k | 0 <= k < |gs| ::
          Drawn(gs[k], plans[k], strides, rs) && lo <= plans[k].first && plans[k].first + gs[k].count * plans[k].span <= hi)
    && (forall i, j, o | 0 <= i < j < |gs| :: !(InPlan(gs[i], plans[i], o) && InPlan(gs[j], plans[j], o)))
    && (forall k, r, i, o | 0 <= k < |gs| && r in regs && r.mapped && Occupies(r, |strides|, i, o, rs) ::
          !InPlan(gs[k], plans[k], o))
  }

  /** The windows of a drawn group are where it is drawn. */
  lemma {:induction false} DrawnInfo(g: Group, plan: Plan, strides: seq<int>, rs: nat)
    requires rs > 0 && Drawn(g, plan, strides, rs)
    ensures MapInfo(g).Some? && First(g) == plan.first && Span(g, |strides|) == plan.span
    ensures var info := MapInfo(g).value;
            |strides| < |info.interval| && info.interval[..|strides| + 1] == strides + [plan.span]
    decreases g
  {
    hide Sizes, Scalars, SlotsDiffer, Layout.Apart, Placed, Occupies, InPlan;
    if g.registers == [] {
      var s := strides + [plan.span];
      assert Drawn(g.groups[0], plan.inner[0], s, rs);
      DrawnInfo(g.groups[0], plan.inner[0], s, rs);
      var v := MapInfo(g).value.interval;
      assert v[..|strides| + 1] == v[..|s| + 1][..|s|] == s;
      assert v[|strides|] == s[|strides|];
    } else {
      var v := g.registers[0].info.interval;
      assert v[..|strides| + 1][|strides|] == v[|strides|];
    }
  }

  lemma {:induction false} DrawnFits(g: Group, plan: Plan, strides: seq<int>, lo: int, hi: int, rs: nat)
    requires rs > 0 && Drawn(g, plan, strides, rs)
    requires 0 <= lo <= plan.first && plan.first + g.count * plan.span <= hi
    ensures GroupFits(g, strides, lo, hi, rs)
    decreases g, 1
  {
    DrawnInfo(g, plan, strides, rs);
    var v := MapInfo(g).value.interval;
    assert v[..|strides| + 1][..|strides|] == v[..|strides|];
    DrawnBodyFits(g.groups, g.registers, plan.inner, strides + [plan.span], plan.first, plan.first + plan.span, rs);
    hide BodyFits, DrawnBody, MapInfo;
  }

  lemma {:induction false} DrawnBodyFits(gs: seq<Group>, regs: seq<Register>, plans: seq<Plan>, strides: seq<int>,
                                         lo: int, hi: int, rs: nat)
    requires rs > 0 && lo >= 0 && DrawnBody(gs, regs, plans, strides, lo, hi, rs)
    ensures BodyFits(gs, regs, strides, lo, hi, rs)
    decreases gs, 0
  {
    hide Sizes, Scalars, SlotsDiffer, Layout.Apart, Placed, Occupies, GroupFits, Drawn, First, Span;
    forall k | 0 <= k < |gs|
      ensures GroupFits(gs[k], strides, lo, hi, rs)
      ensures forall o :: InExtent(gs[k], |strides|, o) <==> InPlan(gs[k], plans[k], o)
    {
      DrawnFits(gs[k], plans[k], strides, lo, hi, rs);
      DrawnInfo(gs[k], plans[k], strides, rs);
    }
    hide InExtent, InPlan;
  }

  ghost predicate BankDrawn(b: Bank, plans: seq<Plan>, size: nat, rs: nat)
    requires rs > 0
  {
    size > 0 && size % rs == 0 && DrawnBody(b.groups, b.registers, plans, [], 0, size, rs)
  }

  /** A bank that is as it is drawn, with its groups side by side at every level, is decoded exactly:
      all registers of all elements are selected at their addresses, and nothing else. */
  lemma PlanDecodes(b: Bank, plans: seq<Plan>, bankSize: nat, o: nat, size: nat, rs: nat)
    requires rs > 0 && BankDrawn(b, plans, bankSize, rs)
    ensures BankCompiles(b) && Disjoint(b, rs) && Exact(b, o, size, rs)
  {
    DrawnBodyFits(b.groups, b.registers, plans, [], 0, bankSize, rs);
    hide BodyFits, DrawnBody, Exact, Disjoint, BankCompiles;
    LayoutDecodes(b, bankSize, o, size, rs);
  }

  // ----- two groups side by side in a group without registers -----

  /** Words at 0x100 * i + 4 * j and at 0x80 + 0x100 * i + 4 * j. */
  const LOW := Register("low", true, false, 0, 4, Linear(0, [0x100, 4, 0, 0, 0, 0, 0, 0], 2))

  const HIGH := Register("high", true, false, 0, 4, Linear(0x80, [0x100, 4, 0, 0, 0, 0, 0, 0], 2))

  const LOWS := Group("lows", 2, [], [LOW])

  const HIGHS := Group("highs", 2, [], [HIGH])

  const PAIRS := Group("pairs", 2, [LOWS, HIGHS], [])

  lemma OneWord(r: Register)
    requires r.mapped && !r.isArray
    ensures Sizes([r]) == {} && Scalars([r]) == [r] && Sizes([]) == {} && Scalars([]) == []
  {
    assert [r][..0] == [];
  }

  lemma WordsDrawn(g: Group, r: Register)
    requires g == Group(g.name, 2, [], [r]) && r.mapped && !r.isArray && r.info.interval == [0x100, 4, 0, 0, 0, 0, 0, 0]
    requires r.info.offset >= 0 && r.info.offset % 4 == 0
    ensures Drawn(g, Plan(r.info.offset, 4, []), [0x100], 4)
  {
    OneWord(r);
    var base, v := r.info.offset, r.info.interval;
    assert v[..2] == [0x100] + [4] && [0x100] + [4] == [0x100, 4];
    assert Placed(r, [0x100, 4], base, base + 4);
    hide Sizes, Scalars, Occupies, Placed;
    assert DrawnBody([], [r], [], [0x100, 4], base, base + 4, 4);
  }

  /** Nothing but groups. */
  lemma GroupsDrawn(gs: seq<Group>, plans: seq<Plan>, strides: seq<int>, lo: int, hi: int, rs: nat)
    requires rs > 0 && |plans| == |gs|
    requires forall k | 0 <= k < |gs| ::
               Drawn(gs[k], plans[k], strides, rs) && lo <= plans[k].first && plans[k].first + gs[k].count * plans[k].span <= hi
    requires forall i, j, o | 0 <= i < j < |gs| :: !(InPlan(gs[i], plans[i], o) && InPlan(gs[j], plans[j], o))
    ensures DrawnBody(gs, [], plans, strides, lo, hi, rs)
  {
    OneWord(LOW);
    hide Sizes, Scalars, Drawn, InPlan, Occupies, Placed, Layout.Apart;
    assert DrawnBody(gs, [], plans, strides, lo, hi, rs);
  }

  lemma PairsDrawn(inner: seq<Plan>)
    requires inner == [Plan(0, 4, []), Plan(0x80, 4, [])]
    ensures BankDrawn(Bank([], [PAIRS]), [Plan(0, 0x100, inner)], 0x200, 4)
  {
    WordsDrawn(LOWS, LOW);
    WordsDrawn(HIGHS, HIGH);
    hide DrawnBody, Drawn;
    GroupsDrawn([LOWS, HIGHS], inner, [0x100], 0, 0x100, 4);
    var plan := Plan(0, 0x100, inner);
    OuterDrawn(plan);
    GroupsDrawn([PAIRS], [plan], [], 0, 0x200, 4);
  }

  lemma OuterDrawn(plan: Plan)
    requires plan.first == 0 && plan.span == 0x100 && plan.inner != [] && plan.inner[0].first == 0
    requires DrawnBody([LOWS, HIGHS], [], plan.inner, [0x100], 0, 0x100, 4)
    ensures Drawn(PAIRS, plan, [], 4)
  {
    assert [] + [0x100] == [0x100];
    hide DrawnBody;
  }

  lemma WordInPairs(g: Group, r: Register, i: int, j: int)
    requires (g == LOWS && r == LOW) || (g == HIGHS && r == HIGH)
    requires 0 <= i < 2 && 0 <= j < 2
    ensures InBank(Bank([], [PAIRS]), r, [i, j]) && Value(r.info, [i, j]) == r.info.offset + 0x100 * i + 4 * j
  {
    var idx, gs := [i, j], [LOWS, HIGHS];
    assert idx[..0] == [] && idx[..1] == [i] && idx[..2] == [i, j];
    DotSnoc(r.info.interval, [i], j);
    DotSnoc(r.info.interval, [], i);
    assert [] + [i] == [i] && [i] + [j] == [i, j];
    assert Indexed(r, [i, j], idx) && r in g.registers;
    hide Dot;
    assert InBody(g, [i, j], r, idx);
    assert InGroup(g, [i], r, idx);
    assert gs[1..] == [HIGHS] && (InGroups([HIGHS], [i], r, idx) || g == LOWS);
    assert InGroups(gs, [i], r, idx);
    assert InBody(PAIRS, [i], r, idx);
    assert InGroup(PAIRS, [], r, idx);
  }

  /** The words of both groups are selected at their addresses in both elements of the outer group. */
  lemma PairsDecode(i: nat, j: nat, size: nat)
    requires i < 2 && j < 2
    ensures var b := Bank([], [PAIRS]);
            && BankCompiles(b)
            && var low, high := Run(EmitBank(b, 4), 0x100 * i + 4 * j, size, 4), Run(EmitBank(b, 4), 0x80 + 0x100 * i + 4 * j, size, 4);
               && low.Hit? && low.reg == LOW && low.idx == [i, j]
               && high.Hit? && high.reg == HIGH && high.idx == [i, j]
  {
    var b, inner := Bank([], [PAIRS]), [Plan(0, 4, []), Plan(0x80, 4, [])];
    var low, high := 0x100 * i + 4 * j, 0x80 + 0x100 * i + 4 * j;
    PairsDrawn(inner);
    WordInPairs(LOWS, LOW, i, j);
    WordInPairs(HIGHS, HIGH, i, j);
    PlanDecodes(b, [Plan(0, 0x100, inner)], 0x200, low, size, 4);
    PlanDecodes(b, [Plan(0, 0x100, inner)], 0x200, high, size, 4);
    CoversScalar(LOW, [i, j], low);
    CoversScalar(HIGH, [i, j], high);
    hide *;
  }

  lemma CoversScalar(r: Register, idx: seq<int>, o: nat)
    requires !r.isArray && Value(r.info, idx) == o
    ensures Covers(r, idx, o, 4)
  {
    hide Value;
  }
}
