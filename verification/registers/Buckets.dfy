/** Registers sorted into buckets before their decoder is emitted: bucket 0 holds the scalars, every
    other bucket in use holds the arrays of one size. */
module Buckets {
  import opened Common
  import opened OffsetExpr

  /** `mapped` is false for the registers without an offset and for those declared unmapped. */
  datatype Register = Register(name: string, mapped: bool, isArray: bool, count: nat, size: nat, info: Linear)

  datatype Bucket = Bucket(size: nat, items: seq<Register>)

  const LIST_SZ := 128

  /** The first place from `i` on where the size is n. */
  function Find(b: seq<Bucket>, i: nat, n: nat): (k: Option<nat>)
    requires i <= |b|
    ensures k.None? <==> forall j | i <= j < |b| :: b[j].size != n
    ensures k.Some? ==> i <= k.value < |b| && b[k.value].size == n && forall j | i <= j < k.value :: b[j].size != n
    decreases |b| - i
  {
    if i == |b| then None else if b[i].size == n then Some(i) else Find(b, i + 1, n)
  }

  /** The bucket for arrays of n registers: the one that has this size, or else the first unused one.
      None stands for the growth of the list when all are in use. */
  function Slot(b: seq<Bucket>, n: nat): (k: Option<nat>)
    requires 1 <= |b|
    ensures k.Some? ==> 1 <= k.value < |b|
  {
    if Find(b, 1, n).Some? then Find(b, 1, n) else Find(b, 1, 0)
  }

  function Empty(): seq<Bucket> {
    seq(LIST_SZ, _ => Bucket(0, []))
  }

  function Place(b: seq<Bucket>, r: Register): (k: Option<seq<Bucket>>)
    requires 1 <= |b|
    ensures k.Some? ==> |k.value| == |b|
  {
    if !r.mapped then Some(b)
    else if !r.isArray then Some(b[0 := Bucket(b[0].size, b[0].items + [r])])
    else match Slot(b, r.count)
      case None => None
      case Some(i) => Some(b[i := Bucket(r.count, b[i].items + [r])])
  }

  function Classify(regs: seq<Register>): (k: Option<seq<Bucket>>)
    ensures k.Some? ==> |k.value| == LIST_SZ
  {
    if regs == [] then Some(Empty())
    else match Classify(regs[..|regs| - 1])
      case None => None
      case Some(b) => Place(b, regs[|regs| - 1])
  }

  // ----- what the buckets hold -----

  /** The mapped scalars, in order. */
  function Scalars(regs: seq<Register>): seq<Register> {
    if regs == [] then []
    else
      var r := regs[|regs| - 1];
      Scalars(regs[..|regs| - 1]) + if r.mapped && !r.isArray then [r] else []
  }

  /** The mapped arrays of n registers, in order. */
  function Arrays(regs: seq<Register>, n: nat): seq<Register> {
    if regs == [] then []
    else
      var r := regs[|regs| - 1];
      Arrays(regs[..|regs| - 1], n) + if r.mapped && r.isArray && r.count == n then [r] else []
  }

  /** The sizes of the mapped arrays. */
  function Sizes(regs: seq<Register>): set<nat> {
    set r | r in regs && r.mapped && r.isArray :: r.count
  }

  predicate Used(b: seq<Bucket>, used: nat, n: nat)
    requires used <= |b|
  {
    exists i | 1 <= i < used :: b[i].size == n
  }

  /** A bucket in use has all the arrays of its size. */
  predicate Holds(k: Bucket, regs: seq<Register>) {
    k.size > 0 && k.size in Sizes(regs) && k.items == Arrays(regs, k.size)
  }

  predicate AllHold(b: seq<Bucket>, used: nat, regs: seq<Register>)
    requires used <= |b|
  {
    forall i | 1 <= i < used :: Holds(b[i], regs)
  }

  predicate DistinctSizes(b: seq<Bucket>, used: nat)
    requires used <= |b|
  {
    forall i, j | 1 <= i < j < used :: b[i].size != b[j].size
  }

  predicate Vacant(b: seq<Bucket>, used: nat) {
    forall i | used <= i < |b| :: b[i] == Bucket(0, [])
  }

  predicate AllUsed(b: seq<Bucket>, used: nat, sizes: set<nat>)
    requires used <= |b|
  {
    forall n | n in sizes :: Used(b, used, n)
  }

  /** Buckets 1 to used - 1 are in use, one for every size. */
  predicate Sorted(b: seq<Bucket>, regs: seq<Register>, used: nat) {
    && 1 <= used <= |b|
    && b[0].items == Scalars(regs)
    && AllHold(b, used, regs) && DistinctSizes(b, used) && Vacant(b, used) && AllUsed(b, used, Sizes(regs))
    && used == 1 + |Sizes(regs)|
  }

  lemma {:induction false} NoneOfSize(regs: seq<Register>, n: nat)
    ensures n !in Sizes(regs) <==> Arrays(regs, n) == []
  {
    if regs != [] {
      var r, front := regs[|regs| - 1], regs[..|regs| - 1];
      NoneOfSize(front, n);
      assert forall q :: q in regs <==> q in front || q == r;
    }
  }

  lemma SizesStep(regs: seq<Register>)
    requires regs != []
    ensures var r, front := regs[|regs| - 1], regs[..|regs| - 1];
            Sizes(regs) == Sizes(front) + if r.mapped && r.isArray then {r.count} else {}
  {
    var r, front := regs[|regs| - 1], regs[..|regs| - 1];
    assert forall q :: q in regs <==> q in front || q == r;
  }

  /** A bucket after one more register. */
  function Refill(k: Bucket, r: Register): Bucket {
    if r.mapped && r.isArray && r.count == k.size then Bucket(k.size, k.items + [r]) else k
  }

  lemma HoldsStep(k: Bucket, regs: seq<Register>)
    requires regs != [] && Holds(k, regs[..|regs| - 1])
    ensures Holds(Refill(k, regs[|regs| - 1]), regs)
  {
    SizesStep(regs);
  }

  lemma HoldsNew(regs: seq<Register>)
    requires regs != []
    requires var r := regs[|regs| - 1]; r.mapped && r.isArray && r.count > 0 && r.count !in Sizes(regs[..|regs| - 1])
    ensures Holds(Bucket(regs[|regs| - 1].count, [regs[|regs| - 1]]), regs)
  {
    SizesStep(regs);
    NoneOfSize(regs[..|regs| - 1], regs[|regs| - 1].count);
  }

  /** Buckets that keep their sizes, and hold what they should of one register more. */
  lemma Refilled(b: seq<Bucket>, c: seq<Bucket>, used: nat, regs: seq<Register>)
    requires regs != [] && used <= |b| == |c|
    requires AllHold(b, used, regs[..|regs| - 1]) && DistinctSizes(b, used) && Vacant(b, used)
    requires AllUsed(b, used, Sizes(regs))
    requires forall i | 1 <= i < |b| :: c[i] == Refill(b[i], regs[|regs| - 1])
    ensures AllHold(c, used, regs) && DistinctSizes(c, used) && AllUsed(c, used, Sizes(regs))
  {
    forall i | 1 <= i < used
      ensures Holds(c[i], regs)
    {
      assert Holds(b[i], regs[..|regs| - 1]);
      HoldsStep(b[i], regs);
    }
    forall n | n in Sizes(regs)
      ensures Used(c, used, n)
    {
      assert Used(b, used, n);
      var j :| 1 <= j < used && b[j].size == n;
      assert c[j].size == n;
    }
  }

  lemma FindKnown(b: seq<Bucket>, used: nat, n: nat)
    requires 1 <= used <= |b| && DistinctSizes(b, used) && Used(b, used, n)
    ensures Slot(b, n).Some? && Slot(b, n).value < used && b[Slot(b, n).value].size == n
    ensures forall j | 1 <= j < used && j != Slot(b, n).value :: b[j].size != n
  {
  }

  lemma PlaceKnown(b: seq<Bucket>, regs: seq<Register>, used: nat)
    requires regs != [] && Sorted(b, regs[..|regs| - 1], used) && 0 !in Sizes(regs)
    requires var r := regs[|regs| - 1]; r.mapped && r.isArray && r.count in Sizes(regs[..|regs| - 1])
    ensures var p := Place(b, regs[|regs| - 1]); p.Some? && Sorted(p.value, regs, used)
  {
    var r, front := regs[|regs| - 1], regs[..|regs| - 1];
    SizesStep(regs);
    assert Sizes(regs) == Sizes(front);
    assert Used(b, used, r.count);
    FindKnown(b, used, r.count);
    var c := Place(b, r).value;
    assert c[0].items == Scalars(regs);
    assert forall j | used <= j < |b| :: c[j] == b[j];
    hide Sizes, Scalars, AllHold, Distinct, AllUsed, Used, Find;
    assert forall j | 1 <= j < |b| :: c[j] == Refill(b[j], r) by {
      forall j | used <= j < |b| ensures b[j].size == 0 {}
    }
    Refilled(b, c, used, regs);
  }

  /** One more bucket in use. */
  lemma Extended(b: seq<Bucket>, k: Bucket, used: nat, regs: seq<Register>)
    requires regs != [] && 1 <= used < |b| && Vacant(b, used)
    requires var r, front := regs[|regs| - 1], regs[..|regs| - 1];
             && AllHold(b, used, front) && DistinctSizes(b, used) && AllUsed(b, used, Sizes(front))
             && r.mapped && r.isArray && r.count == k.size && r.count !in Sizes(front)
    requires Holds(k, regs)
    ensures var c := b[used := k];
            && AllHold(c, used + 1, regs) && DistinctSizes(c, used + 1) && Vacant(c, used + 1)
            && AllUsed(c, used + 1, Sizes(regs))
  {
    var c, r, front := b[used := k], regs[|regs| - 1], regs[..|regs| - 1];
    SizesStep(regs);
    forall j | 1 <= j < used
      ensures Holds(c[j], regs) && c[j].size != r.count
    {
      assert Holds(b[j], front);
      HoldsStep(b[j], regs);
    }
    hide Sizes, Holds;
    forall n | n in Sizes(regs)
      ensures Used(c, used + 1, n)
    {
      if n == r.count {
        assert c[used].size == n;
      } else {
        assert Used(b, used, n);
        var j :| 1 <= j < used && b[j].size == n;
        assert c[j].size == n;
      }
    }
  }

  lemma FindNew(b: seq<Bucket>, used: nat, n: nat)
    requires 1 <= used <= |b| && Vacant(b, used) && n > 0
    requires forall j | 1 <= j < used :: b[j].size != 0 && b[j].size != n
    ensures Slot(b, n) == if used < |b| then Some(used) else None
  {
    assert Find(b, 1, n).None?;
    assert used < |b| ==> b[used].size == 0;
  }

  lemma PlaceNew(b: seq<Bucket>, regs: seq<Register>, used: nat)
    requires regs != [] && Sorted(b, regs[..|regs| - 1], used) && 0 !in Sizes(regs)
    requires var r := regs[|regs| - 1]; r.mapped && r.isArray && r.count !in Sizes(regs[..|regs| - 1])
    ensures var p := Place(b, regs[|regs| - 1]);
            && (p.None? <==> used == |b|)
            && (p.Some? ==> Sorted(p.value, regs, used + 1))
  {
    var r, front := regs[|regs| - 1], regs[..|regs| - 1];
    SizesStep(regs);
    assert r.count in Sizes(regs);
    forall j | 1 <= j < used ensures b[j].size != r.count && b[j].size != 0 { assert Holds(b[j], front); }
    FindNew(b, used, r.count);
    if used < |b| {
      var c := Place(b, r).value;
      var k := Bucket(r.count, [r]);
      assert b[used].items + [r] == [r];
      assert c == b[used := k];
      assert c[0].items == Scalars(regs);
      HoldsNew(regs);
      hide Sizes, Scalars, Place, Holds, Slot, AllHold, Distinct, AllUsed;
      Extended(b, k, used, regs);
    }
  }

  lemma PlaceSorted(b: seq<Bucket>, regs: seq<Register>, used: nat)
    requires regs != [] && Sorted(b, regs[..|regs| - 1], used) && 0 !in Sizes(regs)
    ensures var r := regs[|regs| - 1];
            var grows := r.mapped && r.isArray && r.count !in Sizes(regs[..|regs| - 1]);
            && (Place(b, r).None? <==> grows && used == |b|)
            && (Place(b, r).Some? ==> Sorted(Place(b, r).value, regs, if grows then used + 1 else used))
  {
    var r, front := regs[|regs| - 1], regs[..|regs| - 1];
    if r.mapped && r.isArray {
      hide Sorted, Sizes;
      if r.count in Sizes(front) {
        PlaceKnown(b, regs, used);
      } else {
        PlaceNew(b, regs, used);
      }
    } else {
      SizesStep(regs);
      assert Sizes(regs) == Sizes(front);
      var c := Place(b, r).value;
      assert c[0].items == Scalars(regs);
      hide Sizes, Scalars, AllHold, Distinct, AllUsed;
      Refilled(b, c, used, regs);
    }
  }

  /** With positive array sizes, classification succeeds if and only if there are fewer than LIST_SZ
      different ones; then every bucket holds exactly its registers in their order, the sizes of
      the buckets in use are distinct, and these are contiguous from 1. */
  lemma {:induction false} ClassificationIsExact(regs: seq<Register>)
    requires 0 !in Sizes(regs)
    ensures Classify(regs).Some? <==> |Sizes(regs)| < 128
    ensures Classify(regs).Some? ==> Sorted(Classify(regs).value, regs, 1 + |Sizes(regs)|)
  {
    if regs != [] {
      var front := regs[..|regs| - 1];
      SizesStep(regs);
      ClassificationIsExact(front);
      assert |Sizes(regs)| == |Sizes(front)| + if Sizes(regs) == Sizes(front) then 0 else 1;
      if |Sizes(front)| < LIST_SZ {
        PlaceSorted(Classify(front).value, regs, 1 + |Sizes(front)|);
      }
      hide Sorted, Place, Sizes;
    }
  }

  lemma {:induction false} InScalars(regs: seq<Register>, r: Register)
    ensures r in Scalars(regs) <==> r in regs && r.mapped && !r.isArray
  {
    if regs != [] {
      InScalars(regs[..|regs| - 1], r);
      assert r in regs <==> r in regs[..|regs| - 1] || r == regs[|regs| - 1];
    }
  }

  lemma {:induction false} InArrays(regs: seq<Register>, n: nat, r: Register)
    ensures r in Arrays(regs, n) <==> r in regs && r.mapped && r.isArray && r.count == n
  {
    if regs != [] {
      InArrays(regs[..|regs| - 1], n, r);
      assert r in regs <==> r in regs[..|regs| - 1] || r == regs[|regs| - 1];
    }
  }

  /** Nothing is lost and nothing is doubled: a register is in a bucket before the first unused one
      if and only if it is mapped, and then in one bucket only; two arrays share a bucket if and
      only if they have the same size. */
  lemma ClassificationLosesNothing(regs: seq<Register>, r: Register)
    requires r in regs && 0 !in Sizes(regs) && |Sizes(regs)| < LIST_SZ
    ensures Classify(regs).Some?
    ensures var b, used := Classify(regs).value, 1 + |Sizes(regs)|;
            && (r.mapped <==> exists i | 0 <= i < used :: r in b[i].items)
            && (forall i, j | 0 <= i < used && 0 <= j < used && r in b[i].items && r in b[j].items :: i == j)
            && (forall i, q | 1 <= i < used && r in b[i].items && q in regs && q.mapped && q.isArray ::
                  q in b[i].items <==> q.count == r.count)
  {
    ClassificationIsExact(regs);
    var b, used := Classify(regs).value, 1 + |Sizes(regs)|;
    forall q, n { InArrays(regs, n, q); }
    InScalars(regs, r);
    if r.mapped {
      if r.isArray {
        assert r.count in Sizes(regs);
        assert Used(b, used, r.count);
        var i :| 1 <= i < used && b[i].size == r.count;
        assert r in b[i].items;
      } else {
        assert r in b[0].items;
      }
    }
  }

  // ----- the list in memory -----

  /** The list of buckets, filled in place. */
  class RegisterList {
    var sizes: array<nat>
    var items: array<seq<Register>>

    ghost predicate Valid()
      reads this, sizes, items
    {
      1 <= sizes.Length == items.Length
    }

    ghost function Contents(): (b: seq<Bucket>)
      reads this, sizes, items
      requires Valid()
      ensures |b| == sizes.Length
    {
      seq(sizes.Length, i requires 0 <= i < sizes.Length && sizes.Length == items.Length reads this, sizes, items =>
        Bucket(sizes[i], items[i]))
    }

    constructor ()
      ensures Valid() && fresh(sizes) && fresh(items) && Contents() == Empty()
    {
      sizes := new nat[LIST_SZ](_ => 0);
      items := new seq<Register>[LIST_SZ](_ => []);
      new;
      assert Contents() == Empty();
    }

    /** The place of size n, marking an unused bucket with it if need be. */
    method FindSlot(n: nat) returns (k: Option<nat>)
      requires Valid()
      modifies sizes
      ensures Valid() && k == Slot(old(Contents()), n)
      ensures Contents() == if k.None? then old(Contents())
                            else old(Contents())[k.value := Bucket(n, old(Contents())[k.value].items)]
    {
      ghost var b := Contents();
      var i := 1;
      while i < sizes.Length
        invariant 1 <= i <= sizes.Length
        invariant forall j | 1 <= j < i :: b[j].size != n
      {
        assert b[i].size == sizes[i];
        if sizes[i] == n {
          assert b[i := Bucket(n, b[i].items)] == b;
          return Some(i);
        }
        i := i + 1;
      }
      i := 1;
      while i < sizes.Length
        invariant 1 <= i <= sizes.Length
        invariant forall j | 1 <= j < i :: b[j].size != 0
      {
        assert b[i].size == sizes[i];
        if sizes[i] == 0 {
          sizes[i] := n;
          assert Contents() == b[i := Bucket(n, b[i].items)];
          return Some(i);
        }
        i := i + 1;
      }
      return None;
    }

    method Insert(i: nat, r: Register)
      requires Valid() && i < sizes.Length
      modifies items
      ensures Valid()
      ensures var b := old(Contents()); Contents() == b[i := Bucket(b[i].size, b[i].items + [r])]
    {
      ghost var b := Contents();
      items[i] := items[i] + [r];
      assert Contents() == b[i := Bucket(b[i].size, b[i].items + [r])];
    }
  }

  /** The buckets of a list of registers; None where the list would have to grow. */
  method SortRegisterArray(regs: seq<Register>) returns (list: RegisterList?)
    ensures list == null <==> Classify(regs).None?
    ensures list != null ==> list.Valid() && fresh(list) && Some(list.Contents()) == Classify(regs)
  {
    list := new RegisterList();
    var i := 0;
    while i < |regs|
      invariant 0 <= i <= |regs|
      invariant fresh(list) && fresh(list.sizes) && fresh(list.items)
      invariant list.Valid() && Some(list.Contents()) == Classify(regs[..i])
    {
      ghost var b := list.Contents();
      ClassifyStep(regs, i);
      if regs[i].mapped {
        if regs[i].isArray {
          var k := list.FindSlot(regs[i].count);
          if k.None? {
            ClassifyFails(regs, i + 1);
            return null;
          }
          list.Insert(k.value, regs[i]);
          assert list.Contents() == b[k.value := Bucket(regs[i].count, b[k.value].items + [regs[i]])];
        } else {
          list.Insert(0, regs[i]);
          assert list.Contents() == b[0 := Bucket(b[0].size, b[0].items + [regs[i]])];
        }
      }
      i := i + 1;
    }
    assert regs[..i] == regs;
  }

  lemma ClassifyStep(regs: seq<Register>, i: nat)
    requires i < |regs| && Classify(regs[..i]).Some?
    ensures Classify(regs[..i + 1]) == Place(Classify(regs[..i]).value, regs[i])
  {
    assert regs[..i + 1][..i] == regs[..i];
  }

  lemma {:induction false} ClassifyFails(regs: seq<Register>, i: nat)
    requires i <= |regs| && Classify(regs[..i]).None?
    ensures Classify(regs).None?
    decreases |regs|
  {
    if i < |regs| {
      assert regs[..|regs| - 1][..i] == regs[..i];
      ClassifyFails(regs[..|regs| - 1], i);
    } else {
      assert regs[..i] == regs;
    }
  }
}
