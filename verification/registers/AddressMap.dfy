/** From offset expressions to the decoder, and what the decoder does not reach. */
module AddressMap {
  import opened Common
  import opened OffsetExpr
  import opened Buckets
  import opened Decoder
  import opened BankDecoder
  import opened Layout

  /** End to end: a register with an accepted offset expression, in a bank whose layout fits, is
      selected with an index vector if and only if the expression has the bus offset as its value
      there, or for a scalar the slot of the bus offset; and it then gets the bits and the success
      flag that are due to it. */
  lemma ExpressionDecodes(b: Bank, bankSize: nat, o: nat, size: nat, rs: nat, r: Register, e: Expr, n: nat, idx: seq<int>)
    requires rs > 0 && BankFits(b, bankSize, rs) && InBank(b, r, idx)
    requires Accepted(e, n) && n <= MAX_DEPTH && ReadOffset(e, ZERO) == Done(r.info)
    ensures BankCompiles(b)
    ensures var a := Run(EmitBank(b, rs), o, size, rs);
            && (a.Hit? && a.reg == r && a.idx == idx <==>
                if r.isArray then o == Eval(e, idx) else o / rs == CDiv(Eval(e, idx), rs))
            && (a.Hit? && a.reg == r && a.idx == idx ==> a == ReplyFor(r, idx, o, size))
  {
    LayoutDecodes(b, bankSize, o, size, rs);
    OffsetIsExact(e, n, idx);
    hide Run, EmitBank, ReplyFor, Accepted, ReadOffset, Eval, Value, BankFits, Disjoint, InBank, BankCompiles;
  }

  /** The windows of a group follow its first register alone: outside of them nothing of the group is
      selected, whether or not one of its registers covers the offset. */
  lemma {:induction false} OutsideWindows(g: Group, outer: seq<int>, i: nat, o: nat, size: nat, rs: nat)
    requires Compiles(g) && rs > 0
    requires forall k | i <= k < g.count :: !InWindow(g, outer, k, o)
    ensures Run(EmitWindows(g, outer, i, rs), o, size, rs) == Miss
    decreases g.count - i
  {
    if i < g.count {
      var info := MapInfo(g).value;
      var w := Window(Start(info, outer, i), Start(info, outer, i) + Length(info, outer), EmitBody(g, outer + [i], rs));
      var rest := EmitWindows(g, outer, i + 1, rs);
      assert EmitWindows(g, outer, i, rs) == [w] + rest;
      OutsideWindows(g, outer, i + 1, o, size, rs);
      assert !InWindow(g, outer, i, o);
      RunOne(w, o, size, rs);
      RunAppend([w], rest, o, size, rs);
      hide EmitBody, Run, MapInfo, Compiles;
    }
  }

  /** A word at base + 4 * i. */
  function Word(base: int): Register {
    Register("word", true, false, 0, 4, Linear(base, [4, 0, 0, 0, 0, 0, 0, 0], 1))
  }

  lemma WordAt(base: nat, i: nat)
    ensures Value(Word(base).info, [i]) == base + 4 * i && Value(Word(base).info, []) == base
  {
    DotSnoc(Word(base).info.interval, [], i);
    assert [] + [i] == [i];
  }

  /** So with two words at 4 * i and 0x40 + 4 * i in one group the second one is never selected. */
  lemma InterleavedIsLost(size: nat)
    ensures var g := Group("g", 8, [], [Word(0), Word(0x40)]);
            && Compiles(g) && InGroup(g, [], Word(0x40), [1]) && Covers(Word(0x40), [1], 0x44, 4)
            && Run(EmitWindows(g, [], 0, 4), 0x44, size, 4) == Miss
  {
    var g := Group("g", 8, [], [Word(0), Word(0x40)]);
    WordAt(0x40, 1);
    assert Covers(Word(0x40), [1], 0x44, 4);
    assert InGroup(g, [], Word(0x40), [1]) by {
      assert [1][..0] == [] && [1][..1] == [1] && Word(0x40) == g.registers[1] && Indexed(Word(0x40), [1], [1]);
      hide Word;
      assert InBody(g, [1], Word(0x40), [1]);
    }
    assert Compiles(g) by {
      assert Sizes(g.registers) == {};
      ClassificationIsExact(g.registers);
      hide Classify;
    }
    forall k | 0 <= k < g.count
      ensures !InWindow(g, [], k, 0x44)
    {
      WordAt(0, k);
      assert MapInfo(g) == Some(Word(0).info) && Length(Word(0).info, []) == 4;
      hide Value;
    }
    hide *;
    OutsideWindows(g, [], 0, 0x44, size, 4);
  }

  /** Two scalars in one slot share its case outside of groups, and the second one is never run; away
      from the first element of a group, where the address has left the plain offset, each of them
      starts a case with the same label, which C rejects. */
  lemma SharedSlot(r: Register, r': Register, outer: seq<int>, rs: nat)
    requires rs > 0 && SlotNumber(r, outer, rs) == SlotNumber(r', outer, rs)
    ensures Partition(SortCases([r, r'], outer, rs), [r, r'], outer, rs) <==>
            CDiv(r'.info.offset, rs) == SlotNumber(r', outer, rs)
    ensures CDiv(r'.info.offset, rs) != SlotNumber(r', outer, rs) ==> !DistinctLabels(SortCases([r, r'], outer, rs))
  {
    SwitchIsPartition([r, r'], outer, rs);
    assert Agrees([r, r'], outer, rs) <==> (CDiv(r'.info.offset, rs) == SlotNumber(r', outer, rs));
    assert [r, r'][..1] == [r] && [r][..0] == [];
    assert SortCases([r], outer, rs) == [Case(SlotNumber(r, outer, rs), [SlotOf(r, outer)])];
    if CDiv(r'.info.offset, rs) != SlotNumber(r', outer, rs) {
      var cases := SortCases([r, r'], outer, rs);
      SortCaseAt(SortCases([r], outer, rs), SlotOf(r', outer), rs);
      assert cases == [Case(SlotNumber(r, outer, rs), [SlotOf(r, outer)])] +
                      [Case(SlotNumber(r', outer, rs), [SlotOf(r', outer)])];
      assert cases[0].slot == cases[1].slot;
    }
  }

  // ----- a bank that fits -----

  /** A word at 0x100 * i + 0x10 * j. */
  const CELL := Register("cell", true, false, 0, 4, Linear(0, [0x100, 0x10, 0, 0, 0, 0, 0, 0], 2))

  const ROW := Group("row", 2, [], [CELL])

  const TABLE := Group("table", 4, [ROW], [])

  lemma OneRegister(r: Register)
    requires r.mapped && !r.isArray
    ensures Sizes([r]) == {} && Scalars([r]) == [r] && Sizes([]) == {} && Scalars([]) == []
  {
    assert [r][..0] == [];
  }

  lemma RowFits()
    ensures GroupFits(ROW, [0x100], 0, 0x100, 4)
  {
    OneRegister(CELL);
    assert MapInfo(ROW) == Some(CELL.info) && CELL.info.interval[..1] == [0x100];
    assert [0x100] + [0x10] == [0x100, 0x10] && CELL.info.interval[..2] == [0x100, 0x10];
    assert Placed(CELL, [0x100, 0x10], 0, 0x10);
    hide MapInfo, Sizes, Scalars, Occupies;
    assert BodyFits([], [CELL], [0x100, 0x10], 0, 0x10, 4);
  }

  /** Two levels of groups: address 0x212 is in the word of table element 2, row 1. */
  lemma TableDecodes(size: nat)
    ensures var b := Bank([], [TABLE]);
            && BankFits(b, 0x400, 4) && BankCompiles(b)
            && var a := Run(EmitBank(b, 4), 0x212, size, 4);
               a.Hit? && a.reg == CELL && a.idx == [2, 1]
  {
    var b := Bank([], [TABLE]);
    RowFits();
    OneRegister(CELL);
    assert MapInfo(TABLE) == MapInfo(ROW) == Some(CELL.info);
    assert CELL.info.interval[..0] == [] && [] + [0x100] == [0x100];
    assert GroupFits(TABLE, [], 0, 0x400, 4) by {
      hide MapInfo, Sizes, Scalars, Occupies;
      assert BodyFits([ROW], [], [0x100], 0, 0x100, 4);
    }
    assert BankFits(b, 0x400, 4) by {
      hide MapInfo, Sizes, Scalars, Occupies, GroupFits;
    }
    LayoutDecodes(b, 0x400, 0x212, size, 4);
    CellInTable();
    hide *;
  }

  lemma CellInTable()
    ensures InBank(Bank([], [TABLE]), CELL, [2, 1]) && Covers(CELL, [2, 1], 0x212, 4)
  {
    var idx := [2, 1];
    assert idx[..0] == [] && idx[..1] == [2] && idx[..2] == [2, 1];
    assert Indexed(CELL, [2, 1], idx);
    assert InBody(ROW, [2, 1], CELL, idx);
    assert InGroup(ROW, [2], CELL, idx);
    assert InGroups([ROW], [2], CELL, idx);
    assert InBody(TABLE, [2], CELL, idx);
    assert InGroup(TABLE, [], CELL, idx);
    DotSnoc(CELL.info.interval, [2], 1);
    DotSnoc(CELL.info.interval, [], 2);
    assert [] + [2] == [2] && [2] + [1] == [2, 1];
    hide Dot;
    assert Value(CELL.info, idx) == 0x210;
  }
}
