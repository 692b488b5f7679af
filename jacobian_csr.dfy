/** Jacobians in compressed sparse row form with finite-difference
    directions: the CSR pattern (indices, indptr), the relation from inputs
    to the outputs that depend on them, the greedy grouping of columns into
    directions whose row sets do not interfere, and the scatter of
    directional derivatives into the reused data buffer. */
module JacobianCsr {
  import opened Wrappers

  // ---------------------------------------------------------------------
  // Greedy grouping of columns (first fit, in column order)

  /** A direction under construction: the rows it touches and its columns. */
  datatype Group = Group(rows: set<nat>, cols: set<nat>)

  /** The error update_directions raises on a pattern that does not fit. */
  datatype CsrError = IndexError

  /** Puts column j, which touches `rows`, into the first group whose rows it
      does not meet, or into a new group at the end. */
  function Place(groups: seq<Group>, j: nat, rows: set<nat>): (r: seq<Group>)
    ensures |groups| <= |r| <= |groups| + 1
  {
    if |groups| == 0 then [Group(rows, {j})]
    else if groups[0].rows * rows == {} then [Group(groups[0].rows + rows, groups[0].cols + {j})] + groups[1..]
    else [groups[0]] + Place(groups[1..], j, rows)
  }

  /** The groups after placing columns 0 .. |rel|-1 in order. */
  function FirstFit(rel: seq<set<nat>>): seq<Group>
  {
    if |rel| == 0 then []
    else Place(FirstFit(rel[..|rel| - 1]), |rel| - 1, rel[|rel| - 1])
  }

  /** Column j is in some group. */
  ghost predicate InSome(groups: seq<Group>, j: nat)
  {
    exists g :: 0 <= g < |groups| && j in groups[g].cols
  }

  /** Every group has a column, its columns are below n, and its rows cover
      the rows of each of its columns. */
  ghost predicate ColsOk(groups: seq<Group>, rel: seq<set<nat>>, n: nat)
  {
    n <= |rel|
    && forall g :: 0 <= g < |groups| ==>
         groups[g].cols != {} && forall j :: j in groups[g].cols ==> j < n && rel[j] <= groups[g].rows
  }

  /** No column is in two groups. */
  ghost predicate Exclusive(groups: seq<Group>)
  {
    forall g1, g2 :: 0 <= g1 < g2 < |groups| ==> groups[g1].cols * groups[g2].cols == {}
  }

  /** Every column below n is in some group. */
  ghost predicate Covers(groups: seq<Group>, n: nat)
  {
    forall j :: 0 <= j < n ==> InSome(groups, j)
  }

  /** Two columns of one group have no row in common. */
  ghost predicate Compatible(groups: seq<Group>, rel: seq<set<nat>>)
  {
    forall g :: 0 <= g < |groups| ==>
      forall j1, j2 :: j1 in groups[g].cols && j2 in groups[g].cols && j1 != j2 && j1 < |rel| && j2 < |rel| ==> rel[j1] * rel[j2] == {}
  }

  ghost predicate GroupsOk(groups: seq<Group>, rel: seq<set<nat>>, n: nat)
  {
    ColsOk(groups, rel, n) && Exclusive(groups) && Covers(groups, n) && Compatible(groups, rel)
  }

  /** Place only adds column n: to one existing group or as a new one. */
  lemma {:induction false} PlaceCols(groups: seq<Group>, n: nat, rows: set<nat>)
    ensures var r := Place(groups, n, rows);
      forall k :: 0 <= k < |r| ==>
        (if k < |groups| then groups[k].cols else {}) <= r[k].cols <= (if k < |groups| then groups[k].cols else {}) + {n}
  {
    if |groups| > 0 && groups[0].rows * rows != {} {
      PlaceCols(groups[1..], n, rows);
      var r := Place(groups, n, rows);
      var t := Place(groups[1..], n, rows);
      forall k | 1 <= k < |r|
        ensures (if k < |groups| then groups[k].cols else {}) <= r[k].cols <= (if k < |groups| then groups[k].cols else {}) + {n}
      {
        assert r[k] == t[k - 1];
        if k < |groups| {
          assert groups[1..][k - 1] == groups[k];
        }
      }
    }
  }

  lemma {:induction false} PlaceColsOk(groups: seq<Group>, rel: seq<set<nat>>, n: nat)
    requires ColsOk(groups, rel, n) && n < |rel|
    ensures ColsOk(Place(groups, n, rel[n]), rel, n + 1)
  {
    if |groups| > 0 && groups[0].rows * rel[n] != {} {
      assert ColsOk(groups[1..], rel, n) by {
        forall g | 0 <= g < |groups[1..]| ensures groups[1..][g] == groups[g + 1] {
        }
      }
      PlaceColsOk(groups[1..], rel, n);
    }
  }

  lemma {:induction false} PlaceExclusive(groups: seq<Group>, rel: seq<set<nat>>, n: nat)
    requires ColsOk(groups, rel, n) && Exclusive(groups) && n < |rel|
    ensures Exclusive(Place(groups, n, rel[n]))
  {
    var r := Place(groups, n, rel[n]);
    PlaceCols(groups, n, rel[n]);
    forall g1, g2 | 0 <= g1 < g2 < |r| ensures r[g1].cols * r[g2].cols == {} {
      if g2 < |groups| {
        assert groups[g1].cols * groups[g2].cols == {};
        assert n !in groups[g1].cols && n !in groups[g2].cols;
        if n in r[g1].cols && n in r[g2].cols {
          PlaceOnce(groups, n, rel[n], g1, g2);
        }
      } else {
        assert n !in groups[g1].cols;
        if n in r[g1].cols {
          PlaceOnce(groups, n, rel[n], g1, g2);
        }
      }
    }
  }

  /** Column n lands in one group only. */
  lemma {:induction false} PlaceOnce(groups: seq<Group>, n: nat, rows: set<nat>, g1: nat, g2: nat)
    requires forall g :: 0 <= g < |groups| ==> n !in groups[g].cols
    requires g1 < g2 < |Place(groups, n, rows)|
    ensures !(n in Place(groups, n, rows)[g1].cols && n in Place(groups, n, rows)[g2].cols)
  {
    if |groups| > 0 && groups[0].rows * rows != {} {
      if g1 > 0 {
        PlaceOnce(groups[1..], n, rows, g1 - 1, g2 - 1);
      }
    }
  }

  lemma {:induction false} PlaceCovers(groups: seq<Group>, n: nat, rows: set<nat>)
    requires Covers(groups, n)
    ensures Covers(Place(groups, n, rows), n + 1)
  {
    var r := Place(groups, n, rows);
    PlaceCols(groups, n, rows);
    forall j | 0 <= j < n + 1 ensures InSome(r, j) {
      if j < n {
        assert InSome(groups, j);
        var g :| 0 <= g < |groups| && j in groups[g].cols;
        assert j in r[g].cols;
      } else {
        PlaceAdds(groups, n, rows);
      }
    }
  }

  lemma {:induction false} PlaceAdds(groups: seq<Group>, n: nat, rows: set<nat>)
    ensures InSome(Place(groups, n, rows), n)
  {
    var r := Place(groups, n, rows);
    if |groups| == 0 || groups[0].rows * rows == {} {
      assert n in r[0].cols;
    } else {
      PlaceAdds(groups[1..], n, rows);
      var g :| 0 <= g < |Place(groups[1..], n, rows)| && n in Place(groups[1..], n, rows)[g].cols;
      assert n in r[g + 1].cols;
    }
  }

  lemma {:induction false} PlaceCompatible(groups: seq<Group>, rel: seq<set<nat>>, n: nat)
    requires ColsOk(groups, rel, n) && Compatible(groups, rel) && n < |rel|
    ensures Compatible(Place(groups, n, rel[n]), rel)
  {
    if |groups| == 0 {
    } else if groups[0].rows * rel[n] == {} {
      var r := Place(groups, n, rel[n]);
      MergeCompatible(groups[0], rel, n);
      forall g | 1 <= g < |r| ensures r[g] == groups[g] {
      }
    } else {
      assert ColsOk(groups[1..], rel, n) && Compatible(groups[1..], rel) by {
        forall g | 0 <= g < |groups[1..]| ensures groups[1..][g] == groups[g + 1] {
        }
      }
      PlaceCompatible(groups[1..], rel, n);
    }
  }

  /** Merging column n into a group whose rows it does not meet keeps the
      group free of two columns that share a row. */
  lemma MergeCompatible(g0: Group, rel: seq<set<nat>>, n: nat)
    requires n < |rel| && g0.rows * rel[n] == {}
    requires forall j :: j in g0.cols ==> j < n && rel[j] <= g0.rows
    requires forall j1, j2 :: j1 in g0.cols && j2 in g0.cols && j1 != j2 && j1 < |rel| && j2 < |rel| ==> rel[j1] * rel[j2] == {}
    ensures forall j1, j2 :: j1 in g0.cols + {n} && j2 in g0.cols + {n} && j1 != j2 && j1 < |rel| && j2 < |rel| ==> rel[j1] * rel[j2] == {}
  {
    forall j1, j2 | j1 in g0.cols + {n} && j2 in g0.cols + {n} && j1 != j2 && j1 < |rel| && j2 < |rel|
      ensures rel[j1] * rel[j2] == {}
    {
      if j1 == n {
        assert rel[j2] <= g0.rows;
      } else if j2 == n {
        assert rel[j1] <= g0.rows;
      }
    }
  }

  /** The first-fit groups partition the columns, and two columns share a
      group only if no row depends on both. */
  lemma {:induction false} FirstFitOk(rel: seq<set<nat>>)
    ensures GroupsOk(FirstFit(rel), rel, |rel|)
  {
    if |rel| > 0 {
      var n := |rel| - 1;
      var prev := FirstFit(rel[..n]);
      FirstFitOk(rel[..n]);
      assert ColsOk(prev, rel, n) && Compatible(prev, rel) by {
        forall g, j | 0 <= g < |prev| && j in prev[g].cols ensures j < n && rel[j] == rel[..n][j] {
        }
      }
      PlaceColsOk(prev, rel, n);
      PlaceExclusive(prev, rel, n);
      PlaceCovers(prev, n, rel[n]);
      PlaceCompatible(prev, rel, n);
    }
  }

  /** The 0/1 vector of a group's columns. */
  function DirVector(cols: set<nat>, n: nat): (d: seq<real>)
    ensures |d| == n && forall j :: 0 <= j < n ==> (d[j] == 1.0 <==> j in cols) && (d[j] == 0.0 <==> j !in cols)
  {
    seq(n, j requires 0 <= j < n => if j in cols then 1.0 else 0.0)
  }

  // ---------------------------------------------------------------------
  // CSR pattern

  /** The row slices concatenated. */
  function Flatten(rows: seq<seq<nat>>): (r: seq<nat>)
  {
    if |rows| == 0 then [] else Flatten(rows[..|rows| - 1]) + rows[|rows| - 1]
  }

  /** indptr is a valid row pointer over indices with at least dimF rows
      (rows past dimF are never read), and every column index of the first
      dimF rows is below dimX. */
  predicate WellFormed(indices: seq<nat>, indptr: seq<nat>, dimF: nat, dimX: nat)
  {
    |indptr| >= dimF + 1 && indptr[0] == 0 && indptr[|indptr| - 1] == |indices|
    && (forall a, b :: 0 <= a <= b < |indptr| ==> indptr[a] <= indptr[b])
    && (forall i, p :: 0 <= i < dimF && indptr[i] <= p < indptr[i + 1] ==> indices[p] < dimX)
  }

  /** The rows assign_sparsity_pattern lays out: every column for every
      output when no pattern is given, else the pattern's own rows. */
  function PatternRows(pattern: Option<seq<seq<nat>>>, dimF: nat, dimX: nat): (rows: seq<seq<nat>>)
    ensures pattern.None? ==> |rows| == dimF && forall i :: 0 <= i < dimF ==> rows[i] == seq(dimX, j => j)
    ensures pattern.Some? ==> rows == pattern.value
  {
    if pattern.None? then seq(dimF, _ => seq(dimX, j => j)) else pattern.value
  }

  /** update_directions reads rows 0 .. dimF - 1 and indexes the relation by
      their columns: the rows must exist and their columns lie below dimX. */
  predicate Fits(rows: seq<seq<nat>>, dimF: nat, dimX: nat)
  {
    |rows| >= dimF && forall i, k :: 0 <= i < dimF && 0 <= k < |rows[i]| ==> rows[i][k] < dimX
  }

  /** indptr is the running sum of the row lengths, from 0. */
  predicate PrefixSums(rows: seq<seq<nat>>, indptr: seq<nat>)
  {
    |indptr| == |rows| + 1 && indptr[0] == 0
    && forall r :: 0 <= r < |rows| ==> indptr[r + 1] == indptr[r] + |rows[r]|
  }

  /** Row i's index slice. */
  function RowIndices(indices: seq<nat>, indptr: seq<nat>, dimF: nat, dimX: nat, i: nat): (r: seq<nat>)
    requires WellFormed(indices, indptr, dimF, dimX) && i < dimF
    ensures forall k :: 0 <= k < |r| ==> r[k] < dimX
  {
    indices[indptr[i]..indptr[i + 1]]
  }

  /** The outputs each input contributes to. */
  function Relation(indices: seq<nat>, indptr: seq<nat>, dimF: nat, dimX: nat): (rel: seq<set<nat>>)
    requires WellFormed(indices, indptr, dimF, dimX)
    ensures |rel| == dimX
    ensures forall j, i :: 0 <= j < dimX && 0 <= i < dimF ==> (i in rel[j] <==> j in RowIndices(indices, indptr, dimF, dimX, i))
    ensures forall j, i :: 0 <= j < dimX && i in rel[j] ==> i < dimF
  {
    seq(dimX, j requires 0 <= j < dimX => set i | 0 <= i < dimF && j in RowIndices(indices, indptr, dimF, dimX, i))
  }

  /** The directions built from a pattern. */
  function Dirs(indices: seq<nat>, indptr: seq<nat>, dimF: nat, dimX: nat): (r: seq<seq<real>>)
    requires WellFormed(indices, indptr, dimF, dimX)
    ensures forall g :: 0 <= g < |r| ==> |r[g]| == dimX
  {
    var groups := FirstFit(Relation(indices, indptr, dimF, dimX));
    seq(|groups|, g requires 0 <= g < |groups| => DirVector(groups[g].cols, dimX))
  }

  /** The index of the last direction that is non-zero in column j, or -1. */
  function LastHit(dirs: seq<seq<real>>, j: nat): (r: int)
    ensures -1 <= r < |dirs|
    ensures r >= 0 ==> j < |dirs[r]| && dirs[r][j] != 0.0
    ensures forall g :: r < g < |dirs| ==> j >= |dirs[g]| || dirs[g][j] == 0.0
  {
    if |dirs| == 0 then -1
    else if j < |dirs[|dirs| - 1]| && dirs[|dirs| - 1][j] != 0.0 then |dirs| - 1
    else LastHit(dirs[..|dirs| - 1], j)
  }

  /** A data slot after the directions were processed: the derivative from
      the last direction covering its column, else its old value. */
  function Slot(old_: real, dirs: seq<seq<real>>, dds: seq<seq<real>>, col: nat, i: nat): real
    requires |dds| == |dirs| && forall g :: 0 <= g < |dds| ==> i < |dds[g]|
  {
    var l := LastHit(dirs, col);
    if l >= 0 then dds[l][i] else old_
  }

  /** One more direction: it overwrites the slot exactly when it covers the column. */
  lemma SlotSnoc(old_: real, dirs: seq<seq<real>>, g: nat, dds: seq<seq<real>>, dd: seq<real>, col: nat, i: nat)
    requires g < |dirs| && |dds| == g && i < |dd| && forall h :: 0 <= h < g ==> i < |dds[h]|
    ensures Slot(old_, dirs[..g + 1], dds + [dd], col, i)
      == if col < |dirs[g]| && dirs[g][col] != 0.0 then dd[i] else Slot(old_, dirs[..g], dds, col, i)
  {
    assert dirs[..g + 1][..g] == dirs[..g];
  }

  /** Every slot of the buffer holds what Slot says, from the buffer start. */
  ghost predicate Slots(start: seq<real>, cur: seq<real>, indices: seq<nat>, indptr: seq<nat>, dimF: nat,
                        dirs: seq<seq<real>>, dds: seq<seq<real>>)
  {
    |indptr| >= dimF + 1 && |start| == |cur| && |dds| == |dirs| && (forall g :: 0 <= g < |dds| ==> |dds[g]| == dimF)
    && forall i, p :: 0 <= i < dimF && indptr[i] <= p < indptr[i + 1] && p < |cur| && p < |indices| ==>
         cur[p] == Slot(start[p], dirs, dds, indices[p], i)
  }

  /** The buffer after writing dd[i] into the slots of row i whose column
      the direction covers. */
  ghost predicate Scattered(before: seq<real>, after: seq<real>, indices: seq<nat>, indptr: seq<nat>, dimF: nat,
                            direction: seq<real>, dd: seq<real>)
  {
    |indptr| >= dimF + 1 && |before| == |after| && |dd| == dimF
    && forall i, p :: 0 <= i < dimF && indptr[i] <= p < indptr[i + 1] && p < |after| && p < |indices|
                      && indices[p] < |direction| ==>
         after[p] == if direction[indices[p]] != 0.0 then dd[i] else before[p]
  }

  /** Scattering one more direction's derivative extends Slots by that direction. */
  lemma ScatterSlots(start: seq<real>, before: seq<real>, after: seq<real>, indices: seq<nat>, indptr: seq<nat>,
                     dimF: nat, dimX: nat, dirs: seq<seq<real>>, g: nat, dds: seq<seq<real>>, dd: seq<real>)
    requires WellFormed(indices, indptr, dimF, dimX) && |before| == |after| == |indices|
    requires g < |dirs| && |dirs[g]| == dimX && |dd| == dimF
    requires Slots(start, before, indices, indptr, dimF, dirs[..g], dds)
    requires Scattered(before, after, indices, indptr, dimF, dirs[g], dd)
    ensures Slots(start, after, indices, indptr, dimF, dirs[..g + 1], dds + [dd])
  {
    forall i, p | 0 <= i < dimF && indptr[i] <= p < indptr[i + 1] && p < |after| && p < |indices|
      ensures after[p] == Slot(start[p], dirs[..g + 1], dds + [dd], indices[p], i)
    {
      SlotSnoc(start[p], dirs, g, dds, dd, indices[p], i);
    }
  }

  /** With the first-fit directions, the last direction covering a column is
      the column's own group, and every other direction is zero there. */
  lemma FirstFitHit(indices: seq<nat>, indptr: seq<nat>, dimF: nat, dimX: nat, j: nat)
    requires WellFormed(indices, indptr, dimF, dimX) && j < dimX
    ensures var groups := FirstFit(Relation(indices, indptr, dimF, dimX));
      var dirs := Dirs(indices, indptr, dimF, dimX);
      0 <= LastHit(dirs, j) && j in groups[LastHit(dirs, j)].cols
      && forall g :: 0 <= g < |dirs| && g != LastHit(dirs, j) ==> dirs[g][j] == 0.0
  {
    var rel := Relation(indices, indptr, dimF, dimX);
    var groups := FirstFit(rel);
    var dirs := Dirs(indices, indptr, dimF, dimX);
    FirstFitOk(rel);
    assert InSome(groups, j);
    var h :| 0 <= h < |groups| && j in groups[h].cols;
    OwnGroupOnly(groups, dirs, dimX, j, h);
  }

  /** Directions of exclusive groups: column j is non-zero only in the
      direction of its own group h. */
  lemma OwnGroupOnly(groups: seq<Group>, dirs: seq<seq<real>>, n: nat, j: nat, h: nat)
    requires Exclusive(groups) && j < n && h < |groups| && j in groups[h].cols
    requires |dirs| == |groups| && forall g :: 0 <= g < |groups| ==> dirs[g] == DirVector(groups[g].cols, n)
    ensures LastHit(dirs, j) == h
    ensures forall g :: 0 <= g < |dirs| && g != h ==> j < |dirs[g]| && dirs[g][j] == 0.0
  {
    forall g | 0 <= g < |dirs| && g != h
      ensures j < |dirs[g]| && dirs[g][j] == 0.0
    {
      if g < h {
        assert j !in groups[g].cols by {
          assert groups[g].cols * groups[h].cols == {};
          assert j !in groups[g].cols * groups[h].cols;
        }
      } else {
        assert j !in groups[g].cols by {
          assert groups[h].cols * groups[g].cols == {};
          assert j !in groups[h].cols * groups[g].cols;
        }
      }
    }
    assert dirs[h][j] == 1.0;
  }

  /** With the first-fit directions, a slot of row i and column j holds the
      derivative of the one group containing j. */
  lemma CallSlotIsHome(indices: seq<nat>, indptr: seq<nat>, dimF: nat, dimX: nat, dds: seq<seq<real>>, old_: real, i: nat, col: nat)
    requires WellFormed(indices, indptr, dimF, dimX) && col < dimX
    requires |dds| == |Dirs(indices, indptr, dimF, dimX)| && forall g :: 0 <= g < |dds| ==> i < |dds[g]|
    ensures var groups := FirstFit(Relation(indices, indptr, dimF, dimX));
      exists g :: 0 <= g < |groups| && col in groups[g].cols && Slot(old_, Dirs(indices, indptr, dimF, dimX), dds, col, i) == dds[g][i]
  {
    FirstFitHit(indices, indptr, dimF, dimX, col);
  }

  /** The forward difference quotient; f0 = fun(x0) when not given. */
  function FiniteDiff(fun: seq<real> -> seq<real>, x0: seq<real>, direction: seq<real>, h: real, f0: Option<seq<real>>): (r: (seq<real>, seq<real>))
    requires |direction| == |x0| && h != 0.0
    requires |fun(Step(x0, h, direction))| == |(if f0.Some? then f0.value else fun(x0))|
    ensures r.1 == (if f0.Some? then f0.value else fun(x0))
    ensures |r.0| == |r.1|
    ensures forall i :: 0 <= i < |r.0| ==> r.1[i] + h * r.0[i] == fun(Step(x0, h, direction))[i]
  {
    var base := if f0.Some? then f0.value else fun(x0);
    var moved := fun(Step(x0, h, direction));
    (seq(|base|, i requires 0 <= i < |base| => (moved[i] - base[i]) / h), base)
  }

  /** x0 + h * direction. */
  function Step(x0: seq<real>, h: real, direction: seq<real>): (r: seq<real>)
    requires |direction| == |x0|
    ensures |r| == |x0| && forall j :: 0 <= j < |x0| ==> r[j] == x0[j] + h * direction[j]
  {
    seq(|x0|, j requires 0 <= j < |x0| => x0[j] + h * direction[j])
  }

  // ---------------------------------------------------------------------
  // The handler

  class JacCsr {
    const fun: seq<real> -> seq<real>
    const dfun: Option<seq<real> -> seq<real>>
    const dimF: nat
    const dimX: nat
    var precision: real
    var hasPattern: bool
    var indices: seq<nat>
    var indptr: seq<nat>
    var data: array<real>
    var dirs: seq<seq<real>>

    /** The callbacks return vectors of the output dimension. */
    ghost predicate Shaped()
    {
      (forall x :: |fun(x)| == dimF) && (dfun.Some? ==> forall d :: |dfun.value(d)| == dimF)
    }

    /** Once a pattern is assigned it is a valid CSR pattern, the data buffer
        has one slot per entry and each direction has one entry per input. */
    ghost predicate Valid()
      reads this
    {
      hasPattern ==>
        WellFormed(indices, indptr, dimF, dimX)
        && data.Length == |indices|
        && (forall g :: 0 <= g < |dirs| ==> |dirs[g]| == dimX)
    }

    /** A handler without a pattern (none given). */
    constructor (fun: seq<real> -> seq<real>, dimF: nat, dimX: nat, dfun: Option<seq<real> -> seq<real>>)
      ensures Valid() && !hasPattern && dirs == []
      ensures this.fun == fun && this.dfun == dfun && this.dimF == dimF && this.dimX == dimX && precision == 1.0e-8
    {
      this.fun := fun;
      this.dfun := dfun;
      this.dimF := dimF;
      this.dimX := dimX;
      precision := 1.0e-8;
      hasPattern := false;
      indices := [];
      indptr := [];
      data := new real[0];
      dirs := [];
    }

    /** Dense pattern when none is given, else the rows of the given one, then
        the directions are rebuilt. The arrays are assigned first; a pattern
        with fewer than dimF rows, or with a column at or above dimX in one
        of them, then makes update_directions raise IndexError, leaving the
        directions and the data buffer as they were. */
    method AssignSparsityPattern(pattern: Option<seq<seq<nat>>>) returns (r: Result<(), CsrError>)
      modifies this
      ensures hasPattern && precision == old(precision)
      ensures indices == Flatten(PatternRows(pattern, dimF, dimX)) && PrefixSums(PatternRows(pattern, dimF, dimX), indptr)
      ensures r.Ok? <==> Fits(PatternRows(pattern, dimF, dimX), dimF, dimX)
      ensures pattern.None? ==> r.Ok? && forall i :: 0 <= i <= dimF ==> indptr[i] == i * dimX
      ensures r.Err? ==> r.error == IndexError && dirs == old(dirs) && data == old(data)
      ensures r.Ok? ==> Valid() && forall i :: 0 <= i < dimF ==> RowIndices(indices, indptr, dimF, dimX, i) == PatternRows(pattern, dimF, dimX)[i]
      ensures r.Ok? ==> dirs == Dirs(indices, indptr, dimF, dimX)
      ensures r.Ok? ==> fresh(data) && forall p :: 0 <= p < data.Length ==> data[p] == 0.0
    {
      var idx, ptr := LayOutPattern(pattern, dimF, dimX);
      indices, indptr, hasPattern := idx, ptr, true;
      var fits := FitsCheck(pattern);
      if !fits {
        return Err(IndexError);
      }
      UpdateDirections();
      r := Ok(());
    }

    /** Whether update_directions gets through the rows: at least dimF of
        them, each listing only columns below dimX. */
    method FitsCheck(pattern: Option<seq<seq<nat>>>) returns (ok: bool)
      ensures ok == Fits(PatternRows(pattern, dimF, dimX), dimF, dimX)
    {
      if pattern.None? {
        return true;
      }
      var rows := pattern.value;
      if |rows| < dimF {
        return false;
      }
      var i := 0;
      while i < dimF
        invariant 0 <= i <= dimF
        invariant forall a, k :: 0 <= a < i && 0 <= k < |rows[a]| ==> rows[a][k] < dimX
      {
        var k := 0;
        while k < |rows[i]|
          invariant 0 <= k <= |rows[i]|
          invariant forall c :: 0 <= c < k ==> rows[i][c] < dimX
        {
          if rows[i][k] >= dimX {
            return false;
          }
          k := k + 1;
        }
        i := i + 1;
      }
      return true;
    }

    /** For every input j, the set of outputs whose row lists j. */
    method InputToOutputRelation() returns (rel: seq<set<nat>>)
      requires WellFormed(indices, indptr, dimF, dimX)
      ensures rel == Relation(indices, indptr, dimF, dimX)
    {
      rel := seq(dimX, _ => {});
      var i := 0;
      while i < dimF
        invariant 0 <= i <= dimF && |rel| == dimX
        invariant forall j, r :: 0 <= j < dimX && 0 <= r < i ==> (r in rel[j] <==> j in RowIndices(indices, indptr, dimF, dimX, r))
        invariant forall j, r :: 0 <= j < dimX && r in rel[j] ==> r < i
      {
        var row := RowIndices(indices, indptr, dimF, dimX, i);
        var k := 0;
        while k < |row|
          invariant 0 <= k <= |row| && |rel| == dimX
          invariant forall j, r :: 0 <= j < dimX && 0 <= r < i ==> (r in rel[j] <==> j in RowIndices(indices, indptr, dimF, dimX, r))
          invariant forall j :: 0 <= j < dimX ==> (i in rel[j] <==> j in row[..k])
          invariant forall j, r :: 0 <= j < dimX && r in rel[j] ==> r <= i
        {
          assert row[..k + 1] == row[..k] + [row[k]];
          rel := rel[row[k] := rel[row[k]] + {i}];
          k := k + 1;
        }
        assert row[..k] == row;
        i := i + 1;
      }
      var spec := Relation(indices, indptr, dimF, dimX);
      forall j | 0 <= j < dimX ensures rel[j] == spec[j] {
      }
    }

    /** Groups the columns first-fit into non-interfering directions, builds
        their 0/1 vectors and resets the data buffer to zeros. */
    method UpdateDirections()
      requires WellFormed(indices, indptr, dimF, dimX) && hasPattern
      modifies this
      ensures Valid() && hasPattern
      ensures indices == old(indices) && indptr == old(indptr) && precision == old(precision)
      ensures dirs == Dirs(indices, indptr, dimF, dimX)
      ensures fresh(data) && forall p :: 0 <= p < data.Length ==> data[p] == 0.0
    {
      var rel := InputToOutputRelation();
      var groups := GroupColumns(rel);
      var ds: seq<seq<real>> := [];
      var g := 0;
      while g < |groups|
        invariant 0 <= g <= |groups| && |ds| == g
        invariant forall h :: 0 <= h < g ==> ds[h] == DirVector(groups[h].cols, dimX)
        invariant unchanged(this)
      {
        var d := MakeDirection(groups[g].cols, dimX);
        ds := ds + [d];
        g := g + 1;
      }
      dirs := ds;
      data := new real[indptr[|indptr| - 1]](_ => 0.0);
    }

    /** Evaluates the Jacobian at x0: for each direction, its directional
        derivative (difference quotient around f0 = fun(x0), or dfun) is
        written into the slots of the columns the direction covers. */
    method Call(x0: seq<real>) returns (r: (seq<real>, seq<nat>, seq<nat>))
      requires Valid() && hasPattern && Shaped() && |x0| == dimX && precision != 0.0
      modifies data
      ensures r == (data[..], indices, indptr)
      ensures forall i, p :: 0 <= i < dimF && indptr[i] <= p < indptr[i + 1] ==>
        data[p] == Slot(old(data[p]), dirs, Derivs(x0), indices[p], i)
    {
      var f0 := fun(x0);
      ghost var start := data[..];
      ghost var dds := ScatterDirections(x0, f0);
      forall i, p | 0 <= i < dimF && indptr[i] <= p < indptr[i + 1]
        ensures data[p] == Slot(old(data[p]), dirs, Derivs(x0), indices[p], i)
      {
        assert indptr[i + 1] <= indptr[|indptr| - 1];
        assert data[p] == data[..][p] && old(data[p]) == start[p];
      }
      r := (data[..], indices, indptr);
    }

    /** The direction loop of __call__. */
    method ScatterDirections(x0: seq<real>, f0: seq<real>) returns (ghost dds: seq<seq<real>>)
      requires Valid() && hasPattern && Shaped() && |x0| == dimX && precision != 0.0 && f0 == fun(x0)
      modifies data
      ensures dds == Derivs(x0)
      ensures Slots(old(data[..]), data[..], indices, indptr, dimF, dirs, dds)
    {
      ghost var start := data[..];
      ghost var target := Derivs(x0);
      dds := [];
      var g := 0;
      while g < |dirs|
        invariant 0 <= g <= |dirs| && dds == target[..g]
        invariant target == Derivs(x0)
        invariant Slots(start, data[..], indices, indptr, dimF, dirs[..g], dds)
      {
        var dd := ScatterOne(x0, f0, g, start, dds);
        TakeSnoc(target, g);
        assert dd == target[g];
        dds := dds + [dd];
        g := g + 1;
      }
      assert dirs[..g] == dirs && target[..g] == target;
    }

    /** One pass of the direction loop: the derivative along direction g,
        written into the slots it covers. */
    method ScatterOne(x0: seq<real>, f0: seq<real>, g: nat, ghost start: seq<real>, ghost dds: seq<seq<real>>)
      returns (dd: seq<real>)
      requires Valid() && hasPattern && Shaped() && |x0| == dimX && precision != 0.0 && f0 == fun(x0)
      requires g < |dirs| && Slots(start, data[..], indices, indptr, dimF, dirs[..g], dds)
      modifies data
      ensures dd == Deriv(x0, dirs[g])
      ensures Slots(start, data[..], indices, indptr, dimF, dirs[..g + 1], dds + [dd])
    {
      dd := DirectionalDerivative(x0, f0, dirs[g]);
      ghost var before := data[..];
      Scatter(dirs[g], dd);
      ScatterSlots(start, before, data[..], indices, indptr, dimF, dimX, dirs, g, dds, dd);
    }

    /** One directional derivative, as the loop body of __call__ computes it
        (the difference quotient reuses f0 = fun(x0)). */
    method DirectionalDerivative(x0: seq<real>, f0: seq<real>, direction: seq<real>) returns (dd: seq<real>)
      requires Shaped() && |x0| == |direction| && precision != 0.0 && f0 == fun(x0)
      ensures dd == Deriv(x0, direction)
    {
      if dfun.None? {
        assert |fun(Step(x0, precision, direction))| == dimF;
        var pair := FiniteDiff(fun, x0, direction, precision, Some(f0));
        dd := pair.0;
      } else {
        dd := dfun.value(direction);
      }
    }

    /** The directional derivative along one direction at x0. */
    function Deriv(x0: seq<real>, direction: seq<real>): (d: seq<real>)
      requires Shaped() && |x0| == |direction| && precision != 0.0
      reads this
      ensures |d| == dimF
    {
      if dfun.None? then
        assert |fun(Step(x0, precision, direction))| == |fun(x0)|;
        FiniteDiff(fun, x0, direction, precision, Some(fun(x0))).0
      else dfun.value(direction)
    }

    /** The directional derivative of every direction at x0. */
    function Derivs(x0: seq<real>): (r: seq<seq<real>>)
      requires Valid() && hasPattern && Shaped() && |x0| == dimX && precision != 0.0
      reads this
      ensures |r| == |dirs| && forall g :: 0 <= g < |r| ==> r[g] == Deriv(x0, dirs[g])
    {
      DerivsOf(x0, dirs)
    }

    function DerivsOf(x0: seq<real>, ds: seq<seq<real>>): (r: seq<seq<real>>)
      requires Shaped() && precision != 0.0 && forall g :: 0 <= g < |ds| ==> |ds[g]| == |x0|
      reads this
      ensures |r| == |ds| && forall g :: 0 <= g < |r| ==> r[g] == Deriv(x0, ds[g])
    {
      if |ds| == 0 then [] else DerivsOf(x0, ds[..|ds| - 1]) + [Deriv(x0, ds[|ds| - 1])]
    }

    /** Writes dd[i] into every slot of row i whose column the direction covers. */
    method Scatter(direction: seq<real>, dd: seq<real>)
      requires Valid() && hasPattern && |direction| == dimX && |dd| == dimF
      modifies data
      ensures Scattered(old(data[..]), data[..], indices, indptr, dimF, direction, dd)
    {
      ghost var start := data[..];
      var i := 0;
      while i < dimF
        invariant 0 <= i <= dimF
        invariant forall r, p :: 0 <= r < i && indptr[r] <= p < indptr[r + 1] ==>
          data[p] == if direction[indices[p]] != 0.0 then dd[r] else start[p]
        invariant forall p :: indptr[i] <= p < data.Length ==> data[p] == start[p]
      {
        ScatterRow(i, direction, dd[i]);
        i := i + 1;
      }
      forall r, p | 0 <= r < dimF && indptr[r] <= p < indptr[r + 1] && p < |data[..]| && p < |indices|
        ensures data[..][p] == if direction[indices[p]] != 0.0 then dd[r] else start[p]
      {
        assert data[..][p] == data[p];
      }
    }

    /** The slots of row i: value where the direction covers the column. */
    method ScatterRow(i: nat, direction: seq<real>, value: real)
      requires Valid() && hasPattern && |direction| == dimX && i < dimF
      modifies data
      ensures forall p :: indptr[i] <= p < indptr[i + 1] ==>
        data[p] == if direction[indices[p]] != 0.0 then value else old(data[p])
      ensures forall p :: 0 <= p < data.Length && !(indptr[i] <= p < indptr[i + 1]) ==> data[p] == old(data[p])
    {
      var p := indptr[i];
      assert indptr[i + 1] <= indptr[|indptr| - 1];
      while p < indptr[i + 1]
        invariant indptr[i] <= p <= indptr[i + 1]
        invariant forall q :: indptr[i] <= q < p ==> data[q] == if direction[indices[q]] != 0.0 then value else old(data[q])
        invariant forall q :: 0 <= q < data.Length && !(indptr[i] <= q < p) ==> data[q] == old(data[q])
      {
        if direction[indices[p]] != 0.0 {
          data[p] := value;
        }
        p := p + 1;
      }
    }
  }

  /** The column loop of update_directions: each column goes to the first
      group whose rows it does not meet, else to a new group. */
  method GroupColumns(rel: seq<set<nat>>) returns (groups: seq<Group>)
    ensures groups == FirstFit(rel)
  {
    groups := [];
    var j := 0;
    while j < |rel|
      invariant 0 <= j <= |rel| && groups == FirstFit(rel[..j])
    {
      var idx := FirstFree(groups, j, rel[j]);
      if idx < |groups| {
        PlaceAt(groups, j, rel[j], idx);
        groups := groups[idx := Group(groups[idx].rows + rel[j], groups[idx].cols + {j})];
      } else {
        assert groups[idx..] == [];
        groups := groups + [Group(rel[j], {j})];
      }
      assert rel[..j + 1][..j] == rel[..j];
      j := j + 1;
    }
    assert rel[..j] == rel;
  }

  /** The index of the first group whose rows do not meet `rows`, or |groups|. */
  method FirstFree(groups: seq<Group>, j: nat, rows: set<nat>) returns (idx: nat)
    ensures idx <= |groups|
    ensures idx < |groups| ==> groups[idx].rows * rows == {}
    ensures Place(groups, j, rows) == groups[..idx] + Place(groups[idx..], j, rows)
  {
    idx := 0;
    while idx < |groups| && groups[idx].rows * rows != {}
      invariant 0 <= idx <= |groups|
      invariant Place(groups, j, rows) == groups[..idx] + Place(groups[idx..], j, rows)
    {
      PlaceSkip(groups, j, rows, idx);
      PrefixStep(groups, idx, Place(groups[idx + 1..], j, rows));
      idx := idx + 1;
    }
  }

  lemma TakeSnoc<T>(xs: seq<T>, g: nat)
    requires g < |xs|
    ensures xs[..g + 1] == xs[..g] + [xs[g]]
  {
  }

  lemma PrefixStep<T>(xs: seq<T>, idx: nat, rest: seq<T>)
    requires idx < |xs|
    ensures xs[..idx] + ([xs[idx]] + rest) == xs[..idx + 1] + rest
  {
    assert xs[..idx + 1] == xs[..idx] + [xs[idx]];
  }

  /** A group that meets the rows is passed over. */
  lemma PlaceSkip(groups: seq<Group>, j: nat, rows: set<nat>, idx: nat)
    requires idx < |groups| && groups[idx].rows * rows != {}
    ensures Place(groups[idx..], j, rows) == [groups[idx]] + Place(groups[idx + 1..], j, rows)
  {
    assert groups[idx..][0] == groups[idx];
    assert groups[idx..][1..] == groups[idx + 1..];
  }

  /** Placing into a free group at idx merges the column there. */
  lemma PlaceAt(groups: seq<Group>, j: nat, rows: set<nat>, idx: nat)
    requires idx < |groups| && groups[idx].rows * rows == {}
    requires Place(groups, j, rows) == groups[..idx] + Place(groups[idx..], j, rows)
    ensures Place(groups, j, rows) == groups[idx := Group(groups[idx].rows + rows, groups[idx].cols + {j})]
  {
    assert groups[idx..][1..] == groups[idx + 1..];
  }

  /** A zero vector of length n with 1.0 at the given columns. */
  method MakeDirection(cols: set<nat>, n: nat) returns (d: seq<real>)
    ensures d == DirVector(cols, n)
  {
    var dirNew := new real[n](_ => 0.0);
    var todo := cols;
    while todo != {}
      invariant todo <= cols
      invariant forall c :: 0 <= c < n ==> dirNew[c] == (if c in cols - todo then 1.0 else 0.0)
      decreases |todo|
    {
      var c :| c in todo;
      if c < n {
        dirNew[c] := 1.0;
      }
      todo := todo - {c};
    }
    d := dirNew[..];
  }

  /** The CSR arrays of the dense pattern when none is given, else of the
      rows of the given one; they form a CSR pattern exactly when the rows
      fit the shape. */
  method LayOutPattern(pattern: Option<seq<seq<nat>>>, dimF: nat, dimX: nat) returns (idx: seq<nat>, ptr: seq<nat>)
    ensures idx == Flatten(PatternRows(pattern, dimF, dimX)) && PrefixSums(PatternRows(pattern, dimF, dimX), ptr)
    ensures Fits(PatternRows(pattern, dimF, dimX), dimF, dimX) ==> WellFormed(idx, ptr, dimF, dimX)
    ensures Fits(PatternRows(pattern, dimF, dimX), dimF, dimX) ==>
              forall i :: 0 <= i < dimF ==> RowIndices(idx, ptr, dimF, dimX, i) == PatternRows(pattern, dimF, dimX)[i]
    ensures pattern.None? ==> forall i :: 0 <= i <= dimF ==> ptr[i] == i * dimX
  {
    var rows: seq<seq<nat>>;
    if pattern.None? {
      rows := seq(dimF, _ => seq(dimX, j => j));
    } else {
      rows := pattern.value;
    }
    ptr := RowPointers(rows);
    idx := Flatten(rows);
    if Fits(rows, dimF, dimX) {
      PatternLaidOut(rows, ptr, dimF, dimX);
    }
    if pattern.None? {
      forall i | 0 <= i <= dimF ensures ptr[i] == i * dimX {
        DensePtr(ptr, dimF, dimX, i);
      }
    }
  }

  /** The indptr loop: 0, then a running sum of the row lengths. */
  method RowPointers(rows: seq<seq<nat>>) returns (ptr: seq<nat>)
    ensures PrefixSums(rows, ptr)
  {
    ptr := [0];
    var i := 0;
    while i < |rows|
      invariant 0 <= i <= |rows| && |ptr| == i + 1 && ptr[0] == 0
      invariant forall r :: 0 <= r < i ==> ptr[r + 1] == ptr[r] + |rows[r]|
    {
      ptr := ptr + [ptr[i] + |rows[i]|];
      i := i + 1;
    }
  }

  // ---------------------------------------------------------------------
  // Helpers for the pattern

  /** Prefix-sum pointers rise and end at the length of the concatenation. */
  lemma {:induction false} FlattenBounds(rows: seq<seq<nat>>, indptr: seq<nat>)
    requires |indptr| == |rows| + 1 && indptr[0] == 0
    requires forall r :: 0 <= r < |rows| ==> indptr[r + 1] == indptr[r] + |rows[r]|
    ensures indptr[|rows|] == |Flatten(rows)|
    ensures forall a, b :: 0 <= a <= b <= |rows| ==> indptr[a] <= indptr[b]
  {
    if |rows| > 0 {
      var n := |rows| - 1;
      FlattenBounds(rows[..n], indptr[..n + 1]);
      forall a, b | 0 <= a <= b <= |rows| ensures indptr[a] <= indptr[b] {
        if b == |rows| && a < b {
          assert indptr[..n + 1][a] <= indptr[..n + 1][n];
        }
      }
    }
  }

  /** Prefix-sum pointers over the rows slice their concatenation into the rows. */
  lemma FlattenSlices(rows: seq<seq<nat>>, indptr: seq<nat>)
    requires |indptr| == |rows| + 1 && indptr[0] == 0
    requires forall r :: 0 <= r < |rows| ==> indptr[r + 1] == indptr[r] + |rows[r]|
    ensures indptr[|rows|] == |Flatten(rows)|
    ensures forall a, b :: 0 <= a <= b <= |rows| ==> indptr[a] <= indptr[b]
    ensures forall i :: 0 <= i < |rows| ==> indptr[i] + |rows[i]| <= |Flatten(rows)| && Flatten(rows)[indptr[i]..indptr[i] + |rows[i]|] == rows[i]
  {
    FlattenBounds(rows, indptr);
    forall i | 0 <= i < |rows| ensures indptr[i] + |rows[i]| <= |Flatten(rows)| && Flatten(rows)[indptr[i]..indptr[i] + |rows[i]|] == rows[i] {
      FlattenRow(rows, indptr, i);
    }
  }

  /** Row i is the slice of the concatenation that starts at indptr[i]. */
  lemma {:induction false} FlattenRow(rows: seq<seq<nat>>, indptr: seq<nat>, i: nat)
    requires PrefixSums(rows, indptr) && i < |rows|
    ensures indptr[i] + |rows[i]| <= |Flatten(rows)| && Flatten(rows)[indptr[i]..indptr[i] + |rows[i]|] == rows[i]
  {
    var n := |rows| - 1;
    var f := Flatten(rows[..n]);
    assert Flatten(rows) == f + rows[n];
    assert PrefixSums(rows[..n], indptr[..n + 1]);
    FlattenBounds(rows[..n], indptr[..n + 1]);
    assert |f| == indptr[n];
    if i < n {
      FlattenRow(rows[..n], indptr[..n + 1], i);
      assert rows[..n][i] == rows[i];
      SliceOfPrefix(f, rows[n], indptr[i], |rows[i]|);
    } else {
      assert Flatten(rows)[indptr[i]..indptr[i] + |rows[i]|] == rows[n];
    }
  }

  /** A slice inside the front part of a concatenation is a slice of it. */
  lemma SliceOfPrefix(f: seq<nat>, g: seq<nat>, a: nat, len: nat)
    requires a + len <= |f|
    ensures (f + g)[a..a + len] == f[a..a + len]
  {
  }

  /** Prefix-sum pointers lay rows that fit the shape out as a CSR pattern
      whose first dimF rows are the given ones. */
  lemma PatternLaidOut(rows: seq<seq<nat>>, indptr: seq<nat>, dimF: nat, dimX: nat)
    requires PrefixSums(rows, indptr) && Fits(rows, dimF, dimX)
    ensures WellFormed(Flatten(rows), indptr, dimF, dimX)
    ensures forall i :: 0 <= i < dimF ==> RowIndices(Flatten(rows), indptr, dimF, dimX, i) == rows[i]
  {
    FlattenSlices(rows, indptr);
    var f := Flatten(rows);
    forall i, p | 0 <= i < dimF && indptr[i] <= p < indptr[i + 1] ensures f[p] < dimX {
      assert f[indptr[i]..indptr[i] + |rows[i]|] == rows[i];
      assert f[p] == rows[i][p - indptr[i]];
    }
    forall i | 0 <= i < dimF ensures f[indptr[i]..indptr[i + 1]] == rows[i] {
    }
  }

  lemma DensePtr(indptr: seq<nat>, dimF: nat, dimX: nat, i: nat)
    requires |indptr| == dimF + 1 && indptr[0] == 0 && i <= dimF
    requires forall r :: 0 <= r < dimF ==> indptr[r + 1] == indptr[r] + dimX
    ensures indptr[i] == i * dimX
  {
    if i > 0 {
      DensePtr(indptr, dimF, dimX, i - 1);
    }
  }
}
