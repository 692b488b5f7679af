/** The cycADa tape: the list of elementary operations in creation order, the
    per-set variable-id counters and the lists of independents, switching
    variables, abs nodes and dependents, and the layout of the gradient,
    forward and reverse buffers handed to the operations.

    An operation is a value here; the tape refers to it by its position in
    `ops`. A pointer into a buffer becomes a natural number (base address plus
    offset). */
module AdTape {

  datatype PtrKind = Grad | Fwd | Bar

  datatype Op = Op(
    id: int,
    isRoot: bool,
    isSwVarNode: bool,
    isAbsNode: bool,
    isDependent: bool,
    varSetSizes: seq<nat>,           // |var_sets[s]| for every set s
    ptrs: map<(PtrKind, nat), nat>,  // buffer address per kind and set
    bar: map<nat, real>)             // value at the reverse pointer per set

  /** Number of ids the operation depends on in set s. */
  function Size(o: Op, s: nat): nat
  {
    if s < |o.varSetSizes| then o.varSetSizes[s] else 0
  }

  predicate IsActive(o: Op, s: nat) { Size(o, s) > 0 }

  predicate IsActiveSwVar(o: Op, s: nat) { o.isSwVarNode && Size(o, s) > 0 }

  /** Which operations a tape-wide layout loop visits. */
  datatype Selection = Inters | RevInters

  predicate Selected(o: Op, s: nat, sel: Selection)
  {
    match sel
    case Inters => !o.isDependent && !IsActiveSwVar(o, s)
    case RevInters => !((o.isAbsNode || o.isRoot) && IsActive(o, s))
  }

  /** How many buffer entries an operation takes. */
  datatype Width = One | VarSet | VarSetAtLeastOne

  function W(o: Op, s: nat, w: Width): nat
  {
    match w
    case One => 1
    case VarSet => Size(o, s)
    case VarSetAtLeastOne => if Size(o, s) < 1 then 1 else Size(o, s)
  }

  /** Total width of the selected operations. */
  function SelSum(ops: seq<Op>, s: nat, sel: Selection, w: Width): nat
  {
    if |ops| == 0 then 0
    else SelSum(ops[..|ops| - 1], s, sel, w) + (if Selected(ops[|ops| - 1], s, sel) then W(ops[|ops| - 1], s, w) else 0)
  }

  /** Total width of the listed operations. */
  function ListSum(ops: seq<Op>, list: seq<nat>, s: nat, w: Width): nat
    requires forall i :: 0 <= i < |list| ==> list[i] < |ops|
  {
    if |list| == 0 then 0
    else ListSum(ops, list[..|list| - 1], s, w) + W(ops[list[|list| - 1]], s, w)
  }

  function SetPtr(o: Op, kind: PtrKind, s: nat, addr: nat): (r: Op)
    ensures r.ptrs == o.ptrs[(kind, s) := addr]
    ensures r.id == o.id && r.varSetSizes == o.varSetSizes && r.bar == o.bar
  {
    o.(ptrs := o.ptrs[(kind, s) := addr])
  }

  /** Operation k after a tape-wide layout: a selected operation gets
      base + the widths of the selected operations before it. */
  function LaidOut(ops: seq<Op>, k: nat, s: nat, sel: Selection, w: Width, kind: PtrKind, base: nat): Op
    requires k < |ops|
  {
    if Selected(ops[k], s, sel) then SetPtr(ops[k], kind, s, base + SelSum(ops[..k], s, sel, w)) else ops[k]
  }

  function SetBar(o: Op, s: nat, v: real): (r: Op)
    ensures r.id == o.id && r.bar == o.bar[s := v] && r.ptrs == o.ptrs
  {
    o.(bar := o.bar[s := v])
  }

  /** The operations after pointers were handed out, in list order, at
      base + running total; a repeated entry keeps its last pointer. */
  function WritePtrs(ops: seq<Op>, list: seq<nat>, kind: PtrKind, s: nat, w: Width, base: nat): (r: seq<Op>)
    requires forall i :: 0 <= i < |list| ==> list[i] < |ops|
    ensures |r| == |ops| && forall k :: 0 <= k < |ops| ==> r[k].id == ops[k].id && r[k].varSetSizes == ops[k].varSetSizes
  {
    if |list| == 0 then ops
    else
      var prev := WritePtrs(ops, list[..|list| - 1], kind, s, w, base);
      var k := list[|list| - 1];
      prev[k := SetPtr(prev[k], kind, s, base + ListSum(ops, list[..|list| - 1], s, w))]
  }

  /** The operations after bar values vals were written in list order. */
  function WriteBars(ops: seq<Op>, list: seq<nat>, s: nat, vals: seq<real>): (r: seq<Op>)
    requires |vals| == |list| && forall i :: 0 <= i < |list| ==> list[i] < |ops|
    ensures |r| == |ops| && forall k :: 0 <= k < |ops| ==> r[k].id == ops[k].id
  {
    if |list| == 0 then ops
    else
      var prev := WriteBars(ops, list[..|list| - 1], s, vals[..|list| - 1]);
      var k := list[|list| - 1];
      prev[k := SetBar(prev[k], s, vals[|list| - 1])]
  }

  function ZeroBars(ops: seq<Op>, s: nat): (r: seq<Op>)
    ensures |r| == |ops| && forall k :: 0 <= k < |ops| ==> r[k] == SetBar(ops[k], s, 0.0)
  {
    seq(|ops|, k requires 0 <= k < |ops| => SetBar(ops[k], s, 0.0))
  }

  predicate InRange(list: seq<nat>, n: nat)
  {
    forall i :: 0 <= i < |list| ==> list[i] < n
  }

  class Tape {
    var elemId: nat
    var varIdSets: seq<int>
    var ops: seq<Op>
    var roots: seq<nat>
    var depends: seq<nat>
    var varSets: seq<seq<nat>>
    var swVarSets: seq<seq<nat>>
    var absSets: seq<seq<nat>>

    /** The id of every operation is its position, every list refers to
        operations on the tape, and there is one list and counter per set. */
    ghost predicate Valid()
      reads this
    {
      elemId == |ops|
      && (forall k :: 0 <= k < |ops| ==> ops[k].id == k)
      && |varIdSets| == |varSets| == |swVarSets| == |absSets|
      && InRange(roots, |ops|) && InRange(depends, |ops|)
      && (forall s :: 0 <= s < |varSets| ==> InRange(varSets[s], |ops|))
      && (forall s :: 0 <= s < |swVarSets| ==> InRange(swVarSets[s], |ops|))
      && (forall s :: 0 <= s < |absSets| ==> InRange(absSets[s], |ops|))
    }

    constructor (numOfSets: nat)
      ensures Valid()
      ensures elemId == 0 && ops == [] && roots == [] && depends == []
      ensures varIdSets == seq(numOfSets, _ => 0)
      ensures varSets == swVarSets == absSets == seq(numOfSets, _ => [])
    {
      elemId := 0;
      varIdSets := seq(numOfSets, _ => 0);
      ops := [];
      roots := [];
      depends := [];
      varSets := seq(numOfSets, _ => []);
      swVarSets := seq(numOfSets, _ => []);
      absSets := seq(numOfSets, _ => []);
    }

    /** Pushes the operation and gives it the next id. */
    method AddOp(v: Op) returns (idx: nat)
      requires Valid()
      modifies this
      ensures Valid()
      ensures idx == old(|ops|) && ops == old(ops) + [v.(id := idx)]
      ensures elemId == old(elemId) + 1
      ensures varIdSets == old(varIdSets) && roots == old(roots) && depends == old(depends)
      ensures varSets == old(varSets) && swVarSets == old(swVarSets) && absSets == old(absSets)
    {
      idx := elemId;
      ops := ops + [v.(id := elemId)];
      elemId := elemId + 1;
    }

    method IncrVarId(s: nat)
      requires s < |varIdSets|
      modifies this
      ensures old(Valid()) ==> Valid()
      ensures varIdSets == old(varIdSets)[s := old(varIdSets)[s] + 1]
      ensures elemId == old(elemId) && ops == old(ops) && roots == old(roots) && depends == old(depends)
      ensures varSets == old(varSets) && swVarSets == old(swVarSets) && absSets == old(absSets)
    {
      varIdSets := varIdSets[s := varIdSets[s] + 1];
    }

    function ReadVarId(s: nat): int
      requires s < |varIdSets|
      reads this
    {
      varIdSets[s]
    }

    method SetVarId(s: nat, newVarId: int)
      requires s < |varIdSets|
      modifies this
      ensures old(Valid()) ==> Valid()
      ensures varIdSets == old(varIdSets)[s := newVarId]
      ensures elemId == old(elemId) && ops == old(ops) && roots == old(roots) && depends == old(depends)
      ensures varSets == old(varSets) && swVarSets == old(swVarSets) && absSets == old(absSets)
    {
      varIdSets := varIdSets[s := newVarId];
    }

    /** Sum of the widths of the selected operations, in tape order. */
    method SumOverTape(s: nat, sel: Selection, w: Width) returns (total: nat)
      ensures total == SelSum(ops, s, sel, w)
    {
      total := 0;
      var i := 0;
      while i < |ops|
        invariant 0 <= i <= |ops| && total == SelSum(ops[..i], s, sel, w)
      {
        assert ops[..i + 1][..i] == ops[..i];
        if Selected(ops[i], s, sel) {
          total := total + W(ops[i], s, w);
        }
        i := i + 1;
      }
      assert ops[..i] == ops;
    }

    /** Hands every selected operation the address base + the widths of the
        selected operations before it. */
    method PtrsOverTape(s: nat, sel: Selection, w: Width, kind: PtrKind, base: nat)
      modifies this
      ensures old(Valid()) ==> Valid()
      ensures |ops| == old(|ops|)
      ensures forall k :: 0 <= k < |ops| ==> ops[k] == LaidOut(old(ops), k, s, sel, w, kind, base)
      ensures elemId == old(elemId) && varIdSets == old(varIdSets) && roots == old(roots) && depends == old(depends)
      ensures varSets == old(varSets) && swVarSets == old(swVarSets) && absSets == old(absSets)
    {
      var ops0, cur := ops, ops;
      var offset := 0;
      var i := 0;
      while i < |cur|
        modifies {}
        invariant 0 <= i <= |cur| == |ops0| && offset == SelSum(ops0[..i], s, sel, w)
        invariant forall k :: 0 <= k < i ==> cur[k] == LaidOut(ops0, k, s, sel, w, kind, base)
        invariant forall k :: i <= k < |cur| ==> cur[k] == ops0[k]
      {
        cur, offset := LaidOutNext(ops0, s, sel, w, kind, base, i, cur, offset);
        i := i + 1;
      }
      ops := cur;
    }

    /** Sum of the widths of the listed operations. */
    method SumOverList(list: seq<nat>, s: nat, w: Width) returns (total: nat)
      requires InRange(list, |ops|)
      ensures total == ListSum(ops, list, s, w)
    {
      total := 0;
      var i := 0;
      while i < |list|
        invariant 0 <= i <= |list| && total == ListSum(ops, list[..i], s, w)
      {
        assert list[..i + 1][..i] == list[..i];
        total := total + W(ops[list[i]], s, w);
        i := i + 1;
      }
      assert list[..i] == list;
    }

    /** Hands the listed operations consecutive addresses from base. */
    method PtrsOverList(list: seq<nat>, s: nat, w: Width, kind: PtrKind, base: nat)
      requires InRange(list, |ops|)
      modifies this
      ensures old(Valid()) ==> Valid()
      ensures ops == WritePtrs(old(ops), list, kind, s, w, base)
      ensures elemId == old(elemId) && varIdSets == old(varIdSets) && roots == old(roots) && depends == old(depends)
      ensures varSets == old(varSets) && swVarSets == old(swVarSets) && absSets == old(absSets)
    {
      var ops0, cur := ops, ops;
      var offset := 0;
      var i := 0;
      while i < |list|
        modifies {}
        invariant 0 <= i <= |list| && |cur| == |ops0|
        invariant offset == ListSum(ops0, list[..i], s, w)
        invariant cur == WritePtrs(ops0, list[..i], kind, s, w, base)
      {
        cur, offset := PtrNext(ops0, list, kind, s, w, base, i, cur, offset);
        i := i + 1;
      }
      assert list[..i] == list;
      ops := cur;
    }

    method GradSizeInters(s: nat) returns (r: nat)
      ensures r == SelSum(ops, s, Inters, VarSetAtLeastOne)
    {
      r := SumOverTape(s, Inters, VarSetAtLeastOne);
    }

    method SetGradInters(s: nat, base: nat)
      modifies this
      ensures old(Valid()) ==> Valid()
      ensures |ops| == old(|ops|)
      ensures forall k :: 0 <= k < |ops| ==> ops[k] == LaidOut(old(ops), k, s, Inters, VarSetAtLeastOne, Grad, base)
      ensures elemId == old(elemId) && varIdSets == old(varIdSets) && roots == old(roots) && depends == old(depends)
      ensures varSets == old(varSets) && swVarSets == old(swVarSets) && absSets == old(absSets)
    {
      PtrsOverTape(s, Inters, VarSetAtLeastOne, Grad, base);
    }

    method GradSizeSwVars(s: nat) returns (r: nat)
      requires Valid() && s < |swVarSets|
      ensures r == ListSum(ops, swVarSets[s], s, VarSet)
    {
      r := SumOverList(swVarSets[s], s, VarSet);
    }

    method SetGradSwVars(s: nat, base: nat)
      requires Valid() && s < |swVarSets|
      modifies this
      ensures Valid()
      ensures ops == WritePtrs(old(ops), old(swVarSets)[s], Grad, s, VarSet, base)
      ensures elemId == old(elemId) && varIdSets == old(varIdSets) && roots == old(roots) && depends == old(depends)
      ensures varSets == old(varSets) && swVarSets == old(swVarSets) && absSets == old(absSets)
    {
      PtrsOverList(swVarSets[s], s, VarSet, Grad, base);
    }

    method GradSizeDepends(s: nat) returns (r: nat)
      requires Valid()
      ensures r == ListSum(ops, depends, s, VarSet)
    {
      r := SumOverList(depends, s, VarSet);
    }

    method SetGradDepends(s: nat, base: nat)
      requires Valid()
      modifies this
      ensures Valid()
      ensures ops == WritePtrs(old(ops), old(depends), Grad, s, VarSet, base)
      ensures elemId == old(elemId) && varIdSets == old(varIdSets) && roots == old(roots) && depends == old(depends)
      ensures varSets == old(varSets) && swVarSets == old(swVarSets) && absSets == old(absSets)
    {
      PtrsOverList(depends, s, VarSet, Grad, base);
    }

    method FwdVecSizeInters(s: nat) returns (r: nat)
      ensures r == SelSum(ops, s, Inters, One)
    {
      r := SumOverTape(s, Inters, One);
    }

    method SetFwdVecInters(s: nat, base: nat)
      modifies this
      ensures old(Valid()) ==> Valid()
      ensures |ops| == old(|ops|)
      ensures forall k :: 0 <= k < |ops| ==> ops[k] == LaidOut(old(ops), k, s, Inters, One, Fwd, base)
      ensures elemId == old(elemId) && varIdSets == old(varIdSets) && roots == old(roots) && depends == old(depends)
      ensures varSets == old(varSets) && swVarSets == old(swVarSets) && absSets == old(absSets)
    {
      PtrsOverTape(s, Inters, One, Fwd, base);
    }

    /** One forward entry per switching variable of the set and per dependent. */
    method FwdVecSizeSwVarsAndDepends(s: nat) returns (r: nat)
      requires Valid() && s < |swVarSets|
      ensures r == |swVarSets[s]| + |depends|
    {
      r := 0;
      var i := 0;
      while i < |swVarSets[s]|
        invariant 0 <= i <= |swVarSets[s]| && r == i
      {
        r := r + 1;
        i := i + 1;
      }
      i := 0;
      while i < |depends|
        invariant 0 <= i <= |depends| && r == |swVarSets[s]| + i
      {
        r := r + 1;
        i := i + 1;
      }
    }

    method SetFwdVecSwVarsAndDepends(s: nat, base: nat)
      requires Valid() && s < |swVarSets|
      modifies this
      ensures Valid()
      ensures ops == WritePtrs(WritePtrs(old(ops), old(swVarSets)[s], Fwd, s, One, base), old(depends), Fwd, s, One, base + |old(swVarSets)[s]|)
      ensures elemId == old(elemId) && varIdSets == old(varIdSets) && roots == old(roots) && depends == old(depends)
      ensures varSets == old(varSets) && swVarSets == old(swVarSets) && absSets == old(absSets)
    {
      PtrsOverList(swVarSets[s], s, One, Fwd, base);
      ListSumOne(old(ops), swVarSets[s], s);
      PtrsOverList(depends, s, One, Fwd, base + |swVarSets[s]|);
    }

    method RevVecSizeInters(s: nat) returns (r: nat)
      ensures r == SelSum(ops, s, RevInters, One)
    {
      r := SumOverTape(s, RevInters, One);
    }

    method SetRevVecInters(s: nat, base: nat)
      modifies this
      ensures old(Valid()) ==> Valid()
      ensures |ops| == old(|ops|)
      ensures forall k :: 0 <= k < |ops| ==> ops[k] == LaidOut(old(ops), k, s, RevInters, One, Bar, base)
      ensures elemId == old(elemId) && varIdSets == old(varIdSets) && roots == old(roots) && depends == old(depends)
      ensures varSets == old(varSets) && swVarSets == old(swVarSets) && absSets == old(absSets)
    {
      PtrsOverTape(s, RevInters, One, Bar, base);
    }

    /** One reverse entry per independent of the set and per abs node of the set. */
    method RevVecSizeRootsAndSwVars(s: nat) returns (r: nat)
      requires Valid() && s < |varSets|
      ensures r == |varSets[s]| + |absSets[s]|
    {
      r := 0;
      var i := 0;
      while i < |varSets[s]|
        invariant 0 <= i <= |varSets[s]| && r == i
      {
        r := r + 1;
        i := i + 1;
      }
      i := 0;
      while i < |absSets[s]|
        invariant 0 <= i <= |absSets[s]| && r == |varSets[s]| + i
      {
        r := r + 1;
        i := i + 1;
      }
    }

    method SetRevVecRootsAndSwVars(s: nat, base: nat)
      requires Valid() && s < |varSets|
      modifies this
      ensures Valid()
      ensures ops == WritePtrs(WritePtrs(old(ops), old(varSets)[s], Bar, s, One, base), old(absSets)[s], Bar, s, One, base + |old(varSets)[s]|)
      ensures elemId == old(elemId) && varIdSets == old(varIdSets) && roots == old(roots) && depends == old(depends)
      ensures varSets == old(varSets) && swVarSets == old(swVarSets) && absSets == old(absSets)
    {
      PtrsOverList(varSets[s], s, One, Bar, base);
      ListSumOne(old(ops), varSets[s], s);
      PtrsOverList(absSets[s], s, One, Bar, base + |varSets[s]|);
    }

    /** Zeroes the bar entry of every operation, then seeds the switching
        variables of the set and the dependents from inBar, in that order. */
    method AssignBar(s: nat, inBar: seq<real>)
      requires Valid() && s < |swVarSets| && |inBar| >= |swVarSets[s]| + |depends|
      modifies this
      ensures Valid()
      ensures ops == AfterAssignBar(old(ops), old(swVarSets)[s], old(depends), s, inBar)
      ensures elemId == old(elemId) && varIdSets == old(varIdSets) && roots == old(roots) && depends == old(depends)
      ensures varSets == old(varSets) && swVarSets == old(swVarSets) && absSets == old(absSets)
    {
      ZeroAllBars(s);
      var sw := swVarSets[s];
      SeedBars(sw, s, inBar[..|sw|]);
      SeedBars(depends, s, inBar[|sw|..|sw| + |depends|]);
    }

    /** Zeroes the bar entry of every operation. */
    method ZeroAllBars(s: nat)
      modifies this
      ensures old(Valid()) ==> Valid()
      ensures ops == ZeroBars(old(ops), s)
      ensures elemId == old(elemId) && varIdSets == old(varIdSets) && roots == old(roots) && depends == old(depends)
      ensures varSets == old(varSets) && swVarSets == old(swVarSets) && absSets == old(absSets)
    {
      var i := 0;
      ghost var ops0 := ops;
      while i < |ops|
        invariant 0 <= i <= |ops| == |ops0|
        invariant forall k :: 0 <= k < i ==> ops[k] == SetBar(ops0[k], s, 0.0)
        invariant forall k :: i <= k < |ops| ==> ops[k] == ops0[k]
        invariant elemId == old(elemId) && varIdSets == old(varIdSets) && roots == old(roots) && depends == old(depends)
        invariant varSets == old(varSets) && swVarSets == old(swVarSets) && absSets == old(absSets)
      {
        ops := ops[i := SetBar(ops[i], s, 0.0)];
        i := i + 1;
      }
    }

    /** Writes vals into the bar entries of the listed operations, in order. */
    method SeedBars(list: seq<nat>, s: nat, vals: seq<real>)
      requires InRange(list, |ops|) && |vals| == |list|
      modifies this
      ensures old(Valid()) ==> Valid()
      ensures ops == WriteBars(old(ops), list, s, vals)
      ensures elemId == old(elemId) && varIdSets == old(varIdSets) && roots == old(roots) && depends == old(depends)
      ensures varSets == old(varSets) && swVarSets == old(swVarSets) && absSets == old(absSets)
    {
      ghost var ops0 := ops;
      var i := 0;
      while i < |list|
        invariant 0 <= i <= |list| && |ops| == |ops0|
        invariant ops == WriteBars(ops0, list[..i], s, vals[..i])
        invariant elemId == old(elemId) && varIdSets == old(varIdSets) && roots == old(roots) && depends == old(depends)
        invariant varSets == old(varSets) && swVarSets == old(swVarSets) && absSets == old(absSets)
      {
        assert list[..i + 1][..i] == list[..i] && vals[..i + 1][..i] == vals[..i];
        ops := ops[list[i] := SetBar(ops[list[i]], s, vals[i])];
        i := i + 1;
      }
      assert list[..i] == list && vals[..i] == vals;
    }

    /** The order in which the reverse sweep visits the operations: their ids
        from the last operation to the first. */
    method Rev(s: nat) returns (visited: seq<int>)
      requires Valid()
      ensures |visited| == |ops|
      ensures forall k :: 0 <= k < |ops| ==> visited[k] == |ops| - 1 - k
    {
      visited := [];
      var i := |ops|;
      while i >= 1
        invariant 0 <= i <= |ops| && |visited| == |ops| - i
        invariant forall k :: 0 <= k < |visited| ==> visited[k] == |ops| - 1 - k
      {
        visited := visited + [ops[i - 1].id];
        i := i - 1;
      }
    }
  }

  // ---------------------------------------------------------------------
  // Layout lemmas

  /** One step of a tape-wide layout: operation i gets its address when it
      is selected, and the running offset grows by its width. */
  method LaidOutNext(ops: seq<Op>, s: nat, sel: Selection, w: Width, kind: PtrKind, base: nat, i: nat,
                     cur: seq<Op>, offset: nat) returns (next: seq<Op>, offset': nat)
    requires i < |ops| == |cur| && offset == SelSum(ops[..i], s, sel, w)
    requires forall k :: 0 <= k < i ==> cur[k] == LaidOut(ops, k, s, sel, w, kind, base)
    requires forall k :: i <= k < |cur| ==> cur[k] == ops[k]
    ensures |next| == |ops| && offset' == SelSum(ops[..i + 1], s, sel, w)
    ensures forall k :: 0 <= k < i + 1 ==> next[k] == LaidOut(ops, k, s, sel, w, kind, base)
    ensures forall k :: i + 1 <= k < |next| ==> next[k] == ops[k]
  {
    assert ops[..i + 1][..i] == ops[..i];
    next, offset' := cur, offset;
    if Selected(cur[i], s, sel) {
      next := cur[i := SetPtr(cur[i], kind, s, base + offset)];
      offset' := offset + W(cur[i], s, w);
    }
  }

  /** One entry of a list layout: its operation gets the next address, and
      the running offset grows by its width. */
  method PtrNext(ops: seq<Op>, list: seq<nat>, kind: PtrKind, s: nat, w: Width, base: nat, i: nat,
                 cur: seq<Op>, offset: nat) returns (next: seq<Op>, offset': nat)
    requires InRange(list, |ops|) && i < |list|
    requires cur == WritePtrs(ops, list[..i], kind, s, w, base) && offset == ListSum(ops, list[..i], s, w)
    ensures next == WritePtrs(ops, list[..i + 1], kind, s, w, base) && offset' == ListSum(ops, list[..i + 1], s, w)
  {
    WritePtrsStep(ops, list, kind, s, w, base, i);
    var k := list[i];
    next := cur[k := SetPtr(cur[k], kind, s, base + offset)];
    offset' := offset + W(cur[k], s, w);
  }

  /** One more entry of the list: its operation gets the next address. */
  lemma WritePtrsStep(ops: seq<Op>, list: seq<nat>, kind: PtrKind, s: nat, w: Width, base: nat, i: nat)
    requires InRange(list, |ops|) && i < |list|
    ensures var prev := WritePtrs(ops, list[..i], kind, s, w, base);
            W(prev[list[i]], s, w) == W(ops[list[i]], s, w)
            && ListSum(ops, list[..i + 1], s, w) == ListSum(ops, list[..i], s, w) + W(ops[list[i]], s, w)
            && WritePtrs(ops, list[..i + 1], kind, s, w, base)
               == prev[list[i] := SetPtr(prev[list[i]], kind, s, base + ListSum(ops, list[..i], s, w))]
  {
    assert list[..i + 1][..i] == list[..i];
  }

  lemma {:induction false} ListSumOne(ops: seq<Op>, list: seq<nat>, s: nat)
    requires InRange(list, |ops|)
    ensures ListSum(ops, list, s, One) == |list|
  {
    if |list| > 0 {
      ListSumOne(ops, list[..|list| - 1], s);
    }
  }

  lemma {:induction false} SelSumMonotone(ops: seq<Op>, s: nat, sel: Selection, w: Width, j: nat, k: nat)
    requires j <= k <= |ops|
    ensures SelSum(ops[..j], s, sel, w) <= SelSum(ops[..k], s, sel, w)
  {
    if j < k {
      SelSumMonotone(ops, s, sel, w, j, k - 1);
      assert ops[..k][..k - 1] == ops[..k - 1];
    }
  }

  /** The addresses a tape-wide layout hands out do not overlap and lie
      within the total it reports: a selected operation's block
      [offset, offset + width) ends before the block of any later selected
      operation starts, and before the total. */
  lemma TapeLayoutDisjoint(ops: seq<Op>, s: nat, sel: Selection, w: Width, j: nat, k: nat)
    requires j < k <= |ops| && Selected(ops[j], s, sel)
    ensures SelSum(ops[..j], s, sel, w) + W(ops[j], s, w) <= SelSum(ops[..k], s, sel, w)
    ensures SelSum(ops[..j], s, sel, w) + W(ops[j], s, w) <= SelSum(ops, s, sel, w)
  {
    assert ops[..j + 1][..j] == ops[..j];
    SelSumMonotone(ops, s, sel, w, j + 1, k);
    SelSumMonotone(ops, s, sel, w, j + 1, |ops|);
    assert ops[..|ops|] == ops;
  }

  lemma {:induction false} ListSumMonotone(ops: seq<Op>, list: seq<nat>, s: nat, w: Width, j: nat, k: nat)
    requires InRange(list, |ops|) && j <= k <= |list|
    ensures ListSum(ops, list[..j], s, w) <= ListSum(ops, list[..k], s, w)
  {
    if j < k {
      ListSumMonotone(ops, list, s, w, j, k - 1);
      assert list[..k][..k - 1] == list[..k - 1];
    }
  }

  /** The same for a layout over a list: entry i's block ends before entry
      k's block starts (i < k) and before the total. */
  lemma ListLayoutDisjoint(ops: seq<Op>, list: seq<nat>, s: nat, w: Width, i: nat, k: nat)
    requires InRange(list, |ops|) && i < k <= |list|
    ensures ListSum(ops, list[..i], s, w) + W(ops[list[i]], s, w) <= ListSum(ops, list[..k], s, w)
    ensures ListSum(ops, list[..i], s, w) + W(ops[list[i]], s, w) <= ListSum(ops, list, s, w)
  {
    assert list[..i + 1][..i] == list[..i];
    ListSumMonotone(ops, list, s, w, i + 1, k);
    ListSumMonotone(ops, list, s, w, i + 1, |list|);
    assert list[..|list|] == list;
  }

  /** After a list layout, an operation absent from the list is unchanged. */
  lemma {:induction false} WritePtrsAbsent(ops: seq<Op>, list: seq<nat>, kind: PtrKind, s: nat, w: Width, base: nat, k: nat)
    requires InRange(list, |ops|) && k < |ops| && k !in list
    ensures WritePtrs(ops, list, kind, s, w, base)[k] == ops[k]
  {
    if |list| > 0 {
      WritePtrsAbsent(ops, list[..|list| - 1], kind, s, w, base, k);
    }
  }

  /** An operation whose last occurrence in the list is at i holds the
      address of entry i. */
  lemma {:induction false} WritePtrsLast(ops: seq<Op>, list: seq<nat>, kind: PtrKind, s: nat, w: Width, base: nat, i: nat)
    requires InRange(list, |ops|) && i < |list| && list[i] !in list[i + 1..]
    ensures var r := WritePtrs(ops, list, kind, s, w, base)[list[i]];
      (kind, s) in r.ptrs && r.ptrs[(kind, s)] == base + ListSum(ops, list[..i], s, w)
  {
    var n := |list| - 1;
    WritePtrsUnfold(ops, list, kind, s, w, base, list[i]);
    if i < n {
      LastBefore(list, i);
      WritePtrsLast(ops, list[..n], kind, s, w, base, i);
    } else {
      assert list[..n] == list[..i];
    }
  }

  /** An entry that does not occur after position i is not the last entry,
      and does not occur after position i of the list without it. */
  lemma LastBefore(list: seq<nat>, i: nat)
    requires i < |list| - 1 && list[i] !in list[i + 1..]
    ensures var n := |list| - 1;
      list[n] != list[i] && list[..n][i] == list[i] && list[i] !in list[..n][i + 1..] && list[..n][..i] == list[..i]
  {
    var n := |list| - 1;
    assert list[n] == list[i + 1..][n - i - 1];
    assert list[..n][i + 1..] == list[i + 1..][..n - i - 1];
  }

  /** One unfolding of WritePtrs at operation x. */
  lemma WritePtrsUnfold(ops: seq<Op>, list: seq<nat>, kind: PtrKind, s: nat, w: Width, base: nat, x: nat)
    requires InRange(list, |ops|) && |list| > 0 && x < |ops|
    ensures var n := |list| - 1;
      var prev := WritePtrs(ops, list[..n], kind, s, w, base);
      WritePtrs(ops, list, kind, s, w, base)[x]
        == if x == list[n] then SetPtr(prev[x], kind, s, base + ListSum(ops, list[..n], s, w)) else prev[x]
  {
  }

  lemma {:induction false} WriteBarsAbsent(ops: seq<Op>, list: seq<nat>, s: nat, vals: seq<real>, k: nat)
    requires InRange(list, |ops|) && |vals| == |list| && k < |ops| && k !in list
    ensures WriteBars(ops, list, s, vals)[k] == ops[k]
  {
    if |list| > 0 {
      WriteBarsAbsent(ops, list[..|list| - 1], s, vals[..|list| - 1], k);
    }
  }

  /** An operation whose last occurrence in the list is at i holds vals[i]. */
  lemma {:induction false} WriteBarsLast(ops: seq<Op>, list: seq<nat>, s: nat, vals: seq<real>, i: nat)
    requires InRange(list, |ops|) && |vals| == |list| && i < |list| && list[i] !in list[i + 1..]
    ensures var r := WriteBars(ops, list, s, vals)[list[i]];
      s in r.bar && r.bar[s] == vals[i]
  {
    var n := |list| - 1;
    if i < n {
      assert list[n] in list[i + 1..];
      assert list[..n][i + 1..] == list[i + 1..n];
      assert vals[..n][i] == vals[i];
      WriteBarsLast(ops, list[..n], s, vals[..n], i);
    }
  }

  /** The bar entries after assign_bar, from the entries before it. */
  function AfterAssignBar(ops: seq<Op>, sw: seq<nat>, deps: seq<nat>, s: nat, inBar: seq<real>): (r: seq<Op>)
    requires InRange(sw, |ops|) && InRange(deps, |ops|) && |inBar| >= |sw| + |deps|
    ensures |r| == |ops|
  {
    WriteBars(WriteBars(ZeroBars(ops, s), sw, s, inBar[..|sw|]), deps, s, inBar[|sw|..|sw| + |deps|])
  }

  /** assign_bar leaves 0 in the bar entry of an operation that is neither a
      switching variable of the set nor a dependent. */
  lemma AssignBarUnseeded(ops: seq<Op>, sw: seq<nat>, deps: seq<nat>, s: nat, inBar: seq<real>, k: nat)
    requires InRange(sw, |ops|) && InRange(deps, |ops|) && |inBar| >= |sw| + |deps| && k < |ops|
    requires k !in sw && k !in deps
    ensures s in AfterAssignBar(ops, sw, deps, s, inBar)[k].bar
    ensures AfterAssignBar(ops, sw, deps, s, inBar)[k].bar[s] == 0.0
  {
    var z := ZeroBars(ops, s);
    WriteBarsAbsent(z, sw, s, inBar[..|sw|], k);
    WriteBarsAbsent(WriteBars(z, sw, s, inBar[..|sw|]), deps, s, inBar[|sw|..|sw| + |deps|], k);
  }

  /** A dependent whose last occurrence among the dependents is at i holds
      the seed after the switching variables' seeds. */
  lemma AssignBarDependent(ops: seq<Op>, sw: seq<nat>, deps: seq<nat>, s: nat, inBar: seq<real>, i: nat)
    requires InRange(sw, |ops|) && InRange(deps, |ops|) && |inBar| >= |sw| + |deps|
    requires i < |deps| && deps[i] !in deps[i + 1..]
    ensures s in AfterAssignBar(ops, sw, deps, s, inBar)[deps[i]].bar
    ensures AfterAssignBar(ops, sw, deps, s, inBar)[deps[i]].bar[s] == inBar[|sw| + i]
  {
    var a := WriteBars(ZeroBars(ops, s), sw, s, inBar[..|sw|]);
    WriteBarsLast(a, deps, s, inBar[|sw|..|sw| + |deps|], i);
  }

  /** A switching variable that is not a dependent, last listed at i, holds
      seed i. */
  lemma AssignBarSwVar(ops: seq<Op>, sw: seq<nat>, deps: seq<nat>, s: nat, inBar: seq<real>, i: nat)
    requires InRange(sw, |ops|) && InRange(deps, |ops|) && |inBar| >= |sw| + |deps|
    requires i < |sw| && sw[i] !in sw[i + 1..] && sw[i] !in deps
    ensures s in AfterAssignBar(ops, sw, deps, s, inBar)[sw[i]].bar
    ensures AfterAssignBar(ops, sw, deps, s, inBar)[sw[i]].bar[s] == inBar[i]
  {
    var z := ZeroBars(ops, s);
    WriteBarsLast(z, sw, s, inBar[..|sw|], i);
    WriteBarsAbsent(WriteBars(z, sw, s, inBar[..|sw|]), deps, s, inBar[|sw|..|sw| + |deps|], sw[i]);
  }
}
