/** Element operations of the cycADa tape: the ordering of variable ids,
    the permutation that sorts them, the merge of the dependency id sets of a
    binary operation, its sparse gradient, the id sets of roots and abs nodes,
    and the comparison codes of boolean operations.

    Variable ids of independent variables are non-negative; ids of switching
    variables (created by abs) are stored negated. */
module ElemOp {
  import Sorting

  // ---------------------------------------------------------------------
  // absCmp

  /** The comparison exactly as written: it asks for opposite signs through
      u * w < 0, so an id 0 is never put before a negative id. */
  function AbsCmpAsWritten(u: int, w: int): bool
  {
    if u * w < 0 then !(u < 0)
    else if u < 0 then u > w
    else u < w
  }

  /** Kind of an id: 0 for an independent variable, 1 for a switching variable. */
  function Kind(u: int): nat { if u < 0 then 1 else 0 }

  function Magnitude(u: int): nat { if u < 0 then -u else u }

  /** The documented order of ids: every independent before every switching
      variable, independents ascending, switching variables by ascending
      magnitude (descending stored value). Corrected at id 0. */
  function AbsCmp(u: int, w: int): (r: bool)
    ensures r <==> Kind(u) < Kind(w) || (Kind(u) == Kind(w) && Magnitude(u) < Magnitude(w))
  {
    if (u < 0) != (w < 0) then !(u < 0)
    else if u < 0 then u > w
    else u < w
  }

  /** AbsCmp is a strict total order on ids. */
  lemma AbsCmpStrictTotalOrder()
    ensures forall u :: !AbsCmp(u, u)
    ensures forall u, v, w :: AbsCmp(u, v) && AbsCmp(v, w) ==> AbsCmp(u, w)
    ensures forall u, w :: u != w ==> AbsCmp(u, w) || AbsCmp(w, u)
  {
  }

  /** Away from id 0 the comparison as written agrees with the documented order. */
  lemma AbsCmpAgreesAwayFromZero(u: int, w: int)
    requires u != 0 && w != 0
    ensures AbsCmpAsWritten(u, w) == AbsCmp(u, w)
  {
    if u > 0 && w < 0 {
      assert u * w < 0 by { MulNegative(u, w); }
    } else if u < 0 && w > 0 {
      assert w * u < 0 by { MulNegative(w, u); }
    } else if u > 0 && w > 0 {
      assert u * w > 0 by { MulPositive(u, w); }
    } else {
      assert (-u) * (-w) > 0 by { MulPositive(-u, -w); }
    }
  }

  lemma MulNegative(a: int, b: int)
    requires a > 0 && b < 0
    ensures a * b < 0
  {
    assert a * (-b) > 0 by { MulPositive(a, -b); }
  }

  lemma MulPositive(a: int, b: int)
    requires a > 0 && b > 0
    ensures a * b > 0
  {
    var k := a - 1;
    if k > 0 {
      MulPositive(k, b);
    }
    assert a * b == k * b + b;
  }

  /** The comparison as written is not a strict weak ordering, which std::sort
      requires: 0 before 5 and 5 before -3, yet not 0 before -3. The first
      independent variable of a tape gets id 0. */
  lemma AbsCmpAsWrittenNotTransitive()
    ensures AbsCmpAsWritten(0, 5) && AbsCmpAsWritten(5, -3)
    ensures !AbsCmpAsWritten(0, -3) && !AbsCmpAsWritten(-3, 0)
    ensures AbsCmp(0, -3) && !AbsCmp(-3, 0)
  {
  }

  // ---------------------------------------------------------------------
  // create_permutation_map / apply_permutation_map

  /** p lists 0 .. n-1, each once. */
  predicate IsPermutation(p: seq<nat>, n: nat)
  {
    |p| == n && (forall k :: 0 <= k < n ==> p[k] < n) && (forall a, b :: 0 <= a < b < n ==> p[a] != p[b])
  }

  /** (vec[k], k) for every k. */
  function Indexed(vec: seq<int>): (r: seq<(int, nat)>)
    ensures |r| == |vec| && forall k :: 0 <= k < |vec| ==> r[k] == (vec[k], k)
  {
    seq(|vec|, k requires 0 <= k < |vec| => (vec[k], k))
  }

  function IdLe(a: (int, nat), b: (int, nat)): bool { !AbsCmp(b.0, a.0) }

  lemma IdLeTotalPreorder()
    ensures Sorting.TotalPreorder(IdLe)
  {
    AbsCmpStrictTotalOrder();
  }

  function Seconds(s: seq<(int, nat)>): (r: seq<nat>)
    ensures |r| == |s| && forall k :: 0 <= k < |s| ==> r[k] == s[k].1
  {
    if |s| == 0 then [] else [s[0].1] + Seconds(s[1..])
  }

  /** The index order that sorts vec by AbsCmp (indices of equal ids keep
      their relative order). */
  function CreatePermutationMap(vec: seq<int>): (p: seq<nat>)
    ensures IsPermutation(p, |vec|)
    ensures forall x :: 0 <= x < |vec| ==> x in p
    ensures forall a, b :: 0 <= a < b < |vec| ==> !AbsCmp(vec[p[b]], vec[p[a]])
  {
    SortedIndices(vec);
    Seconds(Sorting.Sort(Indexed(vec), IdLe))
  }

  lemma SortedIndices(vec: seq<int>)
    ensures var p := Seconds(Sorting.Sort(Indexed(vec), IdLe));
      IsPermutation(p, |vec|)
      && (forall x :: 0 <= x < |vec| ==> x in p)
      && (forall a, b :: 0 <= a < b < |vec| ==> !AbsCmp(vec[p[b]], vec[p[a]]))
  {
    var ix := Indexed(vec);
    var sorted := Sorting.Sort(ix, IdLe);
    IdLeTotalPreorder();
    Sorting.SortSorted(ix, IdLe);
    Sorting.SortNoDup(ix, IdLe);
    PermutationOfIndexed(vec, sorted);
    IndexedEntries(vec, sorted);
    var p := Seconds(sorted);
    forall a, b | 0 <= a < b < |vec| ensures !AbsCmp(vec[p[b]], vec[p[a]]) {
      assert IdLe(sorted[a], sorted[b]);
    }
  }

  lemma PermutationOfIndexed(vec: seq<int>, sorted: seq<(int, nat)>)
    requires multiset(sorted) == multiset(Indexed(vec)) && Sorting.NoDup(sorted)
    ensures IsPermutation(Seconds(sorted), |vec|)
    ensures forall x :: 0 <= x < |vec| ==> x in Seconds(sorted)
  {
    IndexedEntries(vec, sorted);
    var sec := Seconds(sorted);
    forall a, b | 0 <= a < b < |vec| ensures sec[a] != sec[b] {
      assert sorted[a] != sorted[b];
    }
    forall x | 0 <= x < |vec| ensures x in sec {
      IndexedCovered(vec, sorted, x);
    }
  }

  /** Every entry of a rearrangement of Indexed(vec) is (vec[k], k) for its own k. */
  lemma IndexedEntries(vec: seq<int>, sorted: seq<(int, nat)>)
    requires multiset(sorted) == multiset(Indexed(vec))
    ensures |sorted| == |vec|
    ensures forall k :: 0 <= k < |sorted| ==> sorted[k].1 < |vec| && sorted[k] == (vec[sorted[k].1], sorted[k].1)
  {
    assert |sorted| == |vec| by {
      assert |multiset(sorted)| == |multiset(Indexed(vec))|;
    }
    forall k | 0 <= k < |sorted| ensures sorted[k].1 < |vec| && sorted[k] == (vec[sorted[k].1], sorted[k].1) {
      assert sorted[k] in multiset(sorted);
      IndexedEntry(vec, sorted[k]);
    }
  }

  lemma IndexedEntry(vec: seq<int>, e: (int, nat))
    requires e in Indexed(vec)
    ensures e.1 < |vec| && e == (vec[e.1], e.1)
  {
  }

  lemma IndexedCovered(vec: seq<int>, sorted: seq<(int, nat)>, x: nat)
    requires multiset(sorted) == multiset(Indexed(vec)) && x < |vec|
    ensures x in Seconds(sorted)
  {
    var ix := Indexed(vec);
    assert ix[x] in multiset(sorted);
    assert ix[x] in sorted;
    var k :| 0 <= k < |sorted| && sorted[k] == ix[x];
    assert Seconds(sorted)[k] == x;
  }

  /** Number of false entries. */
  function CountFalse(s: seq<bool>): nat
  {
    if |s| == 0 then 0 else (if s[0] then 0 else 1) + CountFalse(s[1..])
  }

  lemma {:induction false} CountFalseSet(s: seq<bool>, k: nat)
    requires k < |s| && !s[k]
    ensures CountFalse(s[k := true]) == CountFalse(s) - 1
  {
    if k > 0 {
      assert s[k := true][1..] == s[1..][k - 1 := true];
      CountFalseSet(s[1..], k - 1);
    }
  }

  /** Rearranges vec in place so that vec[k] becomes old vec[p[k]], following
      each cycle of p once and marking visited positions as done. */
  method ApplyPermutationMap(p: seq<nat>, vec: array<int>)
    requires IsPermutation(p, vec.Length)
    modifies vec
    ensures forall k :: 0 <= k < vec.Length ==> vec[k] == old(vec[p[k]])
  {
    var n := vec.Length;
    ghost var orig := vec[..];
    var done := new bool[n](_ => false);
    var i := 0;
    while i < n
      invariant 0 <= i <= n && done.Length == n
      invariant DonePrefix(done[..], i) && Between(p, vec[..], done[..], orig)
    {
      VisitPosition(p, vec, done, i, orig);
      i := i + 1;
    }
    AllDonePermuted(p, vec[..], done[..], orig);
  }

  /** The first i positions are marked done. */
  ghost predicate DonePrefix(d: seq<bool>, i: nat)
  {
    i <= |d| && forall k :: 0 <= k < i ==> d[k]
  }

  /** One pass of the outer loop: the cycle through i is followed unless i is done. */
  method VisitPosition(p: seq<nat>, vec: array<int>, done: array<bool>, i: nat, ghost orig: seq<int>)
    requires i < vec.Length && DonePrefix(done[..], i) && Between(p, vec[..], done[..], orig)
    modifies vec, done
    ensures DonePrefix(done[..], i + 1) && Between(p, vec[..], done[..], orig)
  {
    if !done[i] {
      CycleFollow(p, vec, done, i, orig);
    }
  }

  /** Once every position is done, every position holds its permuted value. */
  lemma AllDonePermuted(p: seq<nat>, v: seq<int>, d: seq<bool>, orig: seq<int>)
    requires Between(p, v, d, orig) && DonePrefix(d, |d|)
    ensures forall k :: 0 <= k < |v| ==> v[k] == orig[p[k]]
  {
  }

  /** What holds while the cycle through i is followed: chain holds the
      positions already written in this cycle, prevJ the last of them (or i). */
  ghost predicate CycleInv(p: seq<nat>, v: seq<int>, d: seq<bool>, orig: seq<int>, i: nat, prevJ: nat, chain: set<nat>)
  {
    var n := |v|;
    |d| == n && |orig| == n && IsPermutation(p, n) && i < n && prevJ < n
    && !d[i] && i !in chain
    && (prevJ == i <==> chain == {})
    && (prevJ in chain || prevJ == i)
    && (forall k :: k in chain ==> k < n && d[k])
    && (forall x :: 0 <= x < n && d[p[x]] && p[x] !in chain ==> d[x] && x !in chain)
    && (forall x :: 0 <= x < n && p[x] in chain ==> x == i || (x in chain && x != prevJ))
    && (forall k :: 0 <= k < n && d[k] && k !in chain ==> v[k] == orig[p[k]])
    && (forall k :: k in chain && k != prevJ ==> v[k] == orig[p[k]])
    && v[prevJ] == orig[i]
    && (prevJ != i ==> v[i] == orig[p[i]])
    && (forall k :: 0 <= k < n && !d[k] && k != prevJ && k != i ==> v[k] == orig[k])
  }

  /** What holds between cycles: done positions hold their final value, the
      others their original one, and done is closed under p's preimage. */
  ghost predicate Between(p: seq<nat>, v: seq<int>, d: seq<bool>, orig: seq<int>)
  {
    var n := |v|;
    |d| == n && |orig| == n && IsPermutation(p, n)
    && (forall k :: 0 <= k < n && d[k] ==> v[k] == orig[p[k]])
    && (forall k :: 0 <= k < n && !d[k] ==> v[k] == orig[k])
    && (forall x :: 0 <= x < n && d[p[x]] ==> d[x])
  }

  lemma CycleStart(p: seq<nat>, v: seq<int>, d: seq<bool>, orig: seq<int>, i: nat)
    requires Between(p, v, d, orig) && i < |v| && !d[i]
    ensures CycleInv(p, v, d, orig, i, i, {})
  {
  }

  lemma CycleStep(p: seq<nat>, v: seq<int>, d: seq<bool>, orig: seq<int>, i: nat, prevJ: nat, chain: set<nat>)
    requires CycleInv(p, v, d, orig, i, prevJ, chain) && p[prevJ] != i
    ensures p[prevJ] !in chain && !d[p[prevJ]]
    ensures CycleInv(p, v[prevJ := v[p[prevJ]]][p[prevJ] := v[prevJ]], d[p[prevJ] := true], orig, i, p[prevJ], chain + {p[prevJ]})
  {
    var j := p[prevJ];
    CycleNext(p, v, d, orig, i, prevJ, chain);
    var v' := v[prevJ := v[j]][j := v[prevJ]];
    var d' := d[j := true];
    var c' := chain + {j};
    CycleStepDone(p, d, i, prevJ, chain, d', c');
    CycleStepValues(p, v, d, orig, i, prevJ, chain, v', d', c');
  }

  /** The next index of the cycle is new: not yet on the chain, not done,
      and not the previous index. */
  lemma CycleNext(p: seq<nat>, v: seq<int>, d: seq<bool>, orig: seq<int>, i: nat, prevJ: nat, chain: set<nat>)
    requires CycleInv(p, v, d, orig, i, prevJ, chain) && p[prevJ] != i
    ensures p[prevJ] !in chain && !d[p[prevJ]] && p[prevJ] != prevJ
  {
    if prevJ == i {
      assert chain == {} && !d[prevJ];
    } else {
      assert prevJ in chain && d[prevJ];
    }
  }

  /** The done flags and the chain after one swap. */
  lemma CycleStepDone(p: seq<nat>, d: seq<bool>, i: nat, prevJ: nat, chain: set<nat>, d': seq<bool>, c': set<nat>)
    requires IsPermutation(p, |d|) && i < |d| && prevJ < |d| && p[prevJ] != i && !d[i] && i !in chain
    requires prevJ == i <==> chain == {}
    requires prevJ in chain || prevJ == i
    requires forall k :: k in chain ==> k < |d| && d[k]
    requires forall x :: 0 <= x < |d| && d[p[x]] && p[x] !in chain ==> d[x] && x !in chain
    requires forall x :: 0 <= x < |d| && p[x] in chain ==> x == i || (x in chain && x != prevJ)
    requires p[prevJ] !in chain && !d[p[prevJ]] && p[prevJ] != prevJ
    requires d' == d[p[prevJ] := true] && c' == chain + {p[prevJ]}
    ensures !d'[i] && i !in c' && c' != {} && p[prevJ] in c'
    ensures forall k :: k in c' ==> k < |d'| && d'[k]
    ensures forall x :: 0 <= x < |d'| && d'[p[x]] && p[x] !in c' ==> d'[x] && x !in c'
    ensures forall x :: 0 <= x < |d'| && p[x] in c' ==> x == i || (x in c' && x != p[prevJ])
  {
    var n := |d|;
    var j := p[prevJ];
    forall x | 0 <= x < n && d'[p[x]] && p[x] !in c'
      ensures d'[x] && x !in c'
    {
      assert d[p[x]] && p[x] !in chain;
    }
    forall x | 0 <= x < n && p[x] in c'
      ensures x == i || (x in c' && x != j)
    {
      if p[x] == j {
        assert x == prevJ;
      }
    }
  }

  /** The values after one swap. */
  lemma CycleStepValues(p: seq<nat>, v: seq<int>, d: seq<bool>, orig: seq<int>, i: nat, prevJ: nat, chain: set<nat>,
                        v': seq<int>, d': seq<bool>, c': set<nat>)
    requires CycleInv(p, v, d, orig, i, prevJ, chain) && p[prevJ] != i
    requires p[prevJ] !in chain && !d[p[prevJ]] && p[prevJ] != prevJ
    requires v' == v[prevJ := v[p[prevJ]]][p[prevJ] := v[prevJ]]
    requires d' == d[p[prevJ] := true] && c' == chain + {p[prevJ]}
    ensures |v'| == |v| && v'[p[prevJ]] == orig[i] && v'[i] == orig[p[i]]
    ensures forall k :: 0 <= k < |v'| && d'[k] && k !in c' ==> v'[k] == orig[p[k]]
    ensures forall k :: k in c' && k != p[prevJ] ==> v'[k] == orig[p[k]]
    ensures forall k :: 0 <= k < |v'| && !d'[k] && k != p[prevJ] && k != i ==> v'[k] == orig[k]
  {
    var n := |v|;
    var j := p[prevJ];
    forall k | 0 <= k < n && d'[k] && k !in c'
      ensures v'[k] == orig[p[k]]
    {
      assert k != prevJ;
    }
    forall k | k in c' && k != j
      ensures v'[k] == orig[p[k]]
    {
      if k == prevJ {
        assert v'[k] == v[j] == orig[j];
      }
    }
    forall k | 0 <= k < n && !d'[k] && k != j && k != i
      ensures v'[k] == orig[k]
    {
      assert k != prevJ;
    }
  }

  lemma CycleClose(p: seq<nat>, v: seq<int>, d: seq<bool>, orig: seq<int>, i: nat, prevJ: nat, chain: set<nat>)
    requires CycleInv(p, v, d, orig, i, prevJ, chain) && p[prevJ] == i
    ensures Between(p, v, d[i := true], orig)
  {
    var d' := d[i := true];
    forall x | 0 <= x < |v| && d'[p[x]] ensures d'[x] {
      if p[x] == i {
        assert x == prevJ;
      }
    }
  }

  /** The inner loop of apply_permutation_map for the cycle through i. */
  method CycleFollow(p: seq<nat>, vec: array<int>, done: array<bool>, i: nat, ghost orig: seq<int>)
    requires Between(p, vec[..], done[..], orig) && i < vec.Length && !done[i]
    modifies vec, done
    ensures Between(p, vec[..], done[..], orig)
    ensures done[i] && forall k :: 0 <= k < done.Length && old(done[k]) ==> done[k]
  {
    var prevJ := i;
    var j := p[i];
    ghost var chain: set<nat> := {};
    CycleStart(p, vec[..], done[..], orig, i);
    while i != j
      invariant CycleInv(p, vec[..], done[..], orig, i, prevJ, chain) && j == p[prevJ]
      invariant forall k :: 0 <= k < done.Length && old(done[k]) ==> done[k]
      decreases CountFalse(done[..])
    {
      CycleStep(p, vec[..], done[..], orig, i, prevJ, chain);
      CountFalseSet(done[..], j);
      vec[prevJ], vec[j] := vec[j], vec[prevJ];
      done[j] := true;
      prevJ := j;
      j := p[j];
      chain := chain + {prevJ};
    }
    CycleClose(p, vec[..], done[..], orig, i, prevJ, chain);
    done[i] := true;
  }

  // ---------------------------------------------------------------------
  // BinaryOperation: merging the id sets of the two dependencies

  /** Position of the first x in s, |s| when absent (std::find minus begin). */
  function IndexOf<T(==)>(s: seq<T>, x: T): (r: nat)
    ensures r <= |s|
    ensures r < |s| ==> s[r] == x
    ensures forall k :: 0 <= k < r ==> s[k] != x
    ensures r == |s| <==> x !in s
  {
    if |s| == 0 then 0
    else if s[0] == x then 0
    else 1 + IndexOf(s[1..], x)
  }

  /** The id set of the binary operation and the map from the concatenated
      id sets of u and w into it: w's ids missing in u are appended, then the
      ids are sorted by AbsCmp and the map follows the permutation. */
  method MergeVarSets(uVars: seq<int>, wVars: seq<int>) returns (vars: seq<int>, idMap: seq<nat>)
    ensures |idMap| == |uVars| + |wVars|
    ensures forall k :: 0 <= k < |idMap| ==> idMap[k] < |vars|
    ensures forall k :: 0 <= k < |uVars| ==> vars[idMap[k]] == uVars[k]
    ensures forall k :: 0 <= k < |wVars| ==> vars[idMap[|uVars| + k]] == wVars[k]
    ensures forall x :: x in vars <==> x in uVars || x in wVars
    ensures Sorting.NoDup(uVars) ==> Sorting.NoDup(vars)
    ensures forall a, b :: 0 <= a < b < |vars| ==> !AbsCmp(vars[b], vars[a])
  {
    var vs, m := AppendMissing(uVars, wVars);
    var perm;
    vars, perm := SortIds(vs);
    idMap := Remap(perm, m);
    forall k | 0 <= k < |idMap| ensures idMap[k] < |vars| && vars[idMap[k]] == vs[m[k]] {
      var j := idMap[k];
      assert perm[j] == m[k] && vars[j] == vs[perm[j]];
    }
  }

  /** Sorts the ids by AbsCmp through the permutation map, applied in place
      to an array; also returns the permutation. */
  method SortIds(vs: seq<int>) returns (vars: seq<int>, perm: seq<nat>)
    ensures IsPermutation(perm, |vs|) && forall x :: 0 <= x < |vs| ==> x in perm
    ensures |vars| == |vs| && forall k :: 0 <= k < |vars| ==> vars[k] == vs[perm[k]]
    ensures forall x :: x in vars <==> x in vs
    ensures Sorting.NoDup(vs) ==> Sorting.NoDup(vars)
    ensures forall a, b :: 0 <= a < b < |vars| ==> !AbsCmp(vars[b], vars[a])
  {
    perm := CreatePermutationMap(vs);
    vars := Permuted(perm, vs);
    PermutedIds(vs, perm, vars);
    PermutedSorted(vs, perm, vars);
  }

  /** Copies the ids into an array and rearranges them there in place. */
  method Permuted(perm: seq<nat>, vs: seq<int>) returns (vars: seq<int>)
    requires IsPermutation(perm, |vs|)
    ensures |vars| == |vs| && forall k :: 0 <= k < |vars| ==> vars[k] == vs[perm[k]]
  {
    var arr := new int[|vs|](k requires 0 <= k < |vs| => vs[k]);
    ghost var before := arr[..];
    assert before == vs;
    ApplyPermutationMap(perm, arr);
    vars := arr[..];
    forall k | 0 <= k < |vars| ensures vars[k] == vs[perm[k]] {
      assert vars[k] == arr[k] == before[perm[k]];
    }
  }

  /** Reading the ids through the sorting permutation gives them in order. */
  lemma PermutedSorted(vs: seq<int>, perm: seq<nat>, vars: seq<int>)
    requires perm == CreatePermutationMap(vs)
    requires |vars| == |vs| && forall k :: 0 <= k < |vars| ==> vars[k] == vs[perm[k]]
    ensures forall a, b :: 0 <= a < b < |vars| ==> !AbsCmp(vars[b], vars[a])
  {
    forall a, b | 0 <= a < b < |vars| ensures !AbsCmp(vars[b], vars[a]) {
      assert vars[a] == vs[perm[a]] && vars[b] == vs[perm[b]];
    }
  }

  /** Rearranging ids by a permutation keeps the set of ids and their distinctness. */
  lemma PermutedIds(vs: seq<int>, perm: seq<nat>, vars: seq<int>)
    requires IsPermutation(perm, |vs|) && (forall x :: 0 <= x < |vs| ==> x in perm)
    requires |vars| == |vs| && forall k :: 0 <= k < |vars| ==> vars[k] == vs[perm[k]]
    ensures forall x :: x in vars <==> x in vs
    ensures Sorting.NoDup(vs) ==> Sorting.NoDup(vars)
  {
    forall x | x in vs ensures x in vars {
      var q :| 0 <= q < |vs| && vs[q] == x;
      assert vars[IndexOf(perm, q)] == x;
    }
    if Sorting.NoDup(vs) {
      forall a, b | 0 <= a < b < |vars| ensures vars[a] != vars[b] {
        assert perm[a] != perm[b];
      }
    }
  }

  /** The first loop of the constructor: u's ids are kept in place, each id
      of w is looked up and appended when absent. */
  method AppendMissing(uVars: seq<int>, wVars: seq<int>) returns (vs: seq<int>, m: seq<nat>)
    ensures |vs| >= |uVars| && vs[..|uVars|] == uVars
    ensures |m| == |uVars| + |wVars|
    ensures forall k :: 0 <= k < |m| ==> m[k] < |vs|
    ensures forall k :: 0 <= k < |uVars| ==> vs[m[k]] == uVars[k]
    ensures forall k :: 0 <= k < |wVars| ==> vs[m[|uVars| + k]] == wVars[k]
    ensures forall x :: x in vs <==> x in uVars || x in wVars
    ensures Sorting.NoDup(uVars) ==> Sorting.NoDup(vs)
  {
    vs := uVars;
    m := seq(|uVars|, k => k);
    var t := 0;
    while t < |wVars|
      invariant 0 <= t <= |wVars|
      invariant |vs| >= |uVars| && vs[..|uVars|] == uVars
      invariant |m| == |uVars| + t
      invariant forall k :: 0 <= k < |m| ==> m[k] < |vs|
      invariant forall k :: 0 <= k < |uVars| ==> vs[m[k]] == uVars[k]
      invariant forall k :: 0 <= k < t ==> vs[m[|uVars| + k]] == wVars[k]
      invariant forall x :: x in vs <==> x in uVars || x in wVars[..t]
      invariant Sorting.NoDup(uVars) ==> Sorting.NoDup(vs)
    {
      var x := wVars[t];
      var pos := IndexOf(vs, x);
      if pos >= |vs| {
        m := m + [|vs|];
        vs := vs + [x];
      } else {
        m := m + [pos];
      }
      assert wVars[..t + 1] == wVars[..t] + [x];
      t := t + 1;
    }
    assert wVars[..t] == wVars;
  }

  /** The second loop of the constructor: each map entry is replaced by its
      position in the permutation. */
  method Remap(perm: seq<nat>, m: seq<nat>) returns (idMap: seq<nat>)
    requires forall k :: 0 <= k < |m| ==> m[k] in perm
    ensures |idMap| == |m|
    ensures forall k :: 0 <= k < |m| ==> idMap[k] < |perm| && perm[idMap[k]] == m[k]
  {
    idMap := m;
    var i := 0;
    while i < |idMap|
      invariant 0 <= i <= |idMap| == |m|
      invariant forall k :: 0 <= k < i ==> idMap[k] < |perm| && perm[idMap[k]] == m[k]
      invariant forall k :: i <= k < |idMap| ==> idMap[k] == m[k]
    {
      idMap := idMap[i := IndexOf(perm, m[i])];
      i := i + 1;
    }
  }

  // ---------------------------------------------------------------------
  // BinaryOperation::sparse_grad

  /** Sum of the weights whose map entry is k. */
  function Contrib(idMap: seq<nat>, weights: seq<real>, k: nat): real
    requires |idMap| == |weights|
  {
    if |idMap| == 0 then 0.0
    else (if idMap[0] == k then weights[0] else 0.0) + Contrib(idMap[1..], weights[1..], k)
  }

  function Scale(c: real, g: seq<real>): (r: seq<real>)
    ensures |r| == |g| && forall k :: 0 <= k < |g| ==> r[k] == c * g[k]
  {
    if |g| == 0 then [] else [c * g[0]] + Scale(c, g[1..])
  }

  lemma {:induction false} ContribSnoc(idMap: seq<nat>, weights: seq<real>, k: nat, j: nat, w: real)
    requires |idMap| == |weights|
    ensures Contrib(idMap + [j], weights + [w], k) == Contrib(idMap, weights, k) + (if j == k then w else 0.0)
  {
    if |idMap| == 0 {
      assert (idMap + [j])[1..] == [];
    } else {
      assert (idMap + [j])[1..] == idMap[1..] + [j];
      assert (weights + [w])[1..] == weights[1..] + [w];
      ContribSnoc(idMap[1..], weights[1..], k, j, w);
    }
  }

  /** Clears the first nVars gradient slots, then adds c0 times u's gradient
      and c1 times w's gradient at the positions the map gives. */
  method SparseGrad(idMap: seq<nat>, nVars: nat, uGrad: seq<real>, wGrad: seq<real>, c0: real, c1: real, grad: array<real>)
    requires |idMap| == |uGrad| + |wGrad| && nVars <= grad.Length
    requires forall k :: 0 <= k < |idMap| ==> idMap[k] < nVars
    modifies grad
    ensures forall k :: 0 <= k < nVars ==> grad[k] == Contrib(idMap, Scale(c0, uGrad) + Scale(c1, wGrad), k)
    ensures forall k :: nVars <= k < grad.Length ==> grad[k] == old(grad[k])
  {
    var weights := Scale(c0, uGrad) + Scale(c1, wGrad);
    var i := 0;
    while i < nVars
      invariant 0 <= i <= nVars
      invariant forall k :: 0 <= k < i ==> grad[k] == 0.0
      invariant forall k :: i <= k < grad.Length ==> grad[k] == old(grad[k])
    {
      grad[i] := 0.0;
      i := i + 1;
    }
    var j := 0;
    while j < |idMap|
      invariant 0 <= j <= |idMap|
      invariant forall k :: 0 <= k < nVars ==> grad[k] == Contrib(idMap[..j], weights[..j], k)
      invariant forall k :: nVars <= k < grad.Length ==> grad[k] == old(grad[k])
    {
      var w := if j < |uGrad| then c0 * uGrad[j] else c1 * wGrad[j - |uGrad|];
      assert w == weights[j];
      forall k | 0 <= k < nVars ensures Contrib(idMap[..j + 1], weights[..j + 1], k) == Contrib(idMap[..j], weights[..j], k) + (if idMap[j] == k then w else 0.0) {
        assert idMap[..j + 1] == idMap[..j] + [idMap[j]];
        assert weights[..j + 1] == weights[..j] + [w];
        ContribSnoc(idMap[..j], weights[..j], k, idMap[j], w);
      }
      grad[idMap[j]] := grad[idMap[j]] + w;
      j := j + 1;
    }
    assert idMap[..j] == idMap && weights[..j] == weights;
  }

  // ---------------------------------------------------------------------
  // set_var_id of roots and abs nodes

  /** RootInit::set_var_id: an independent variable stores the magnitude of its id. */
  function RootVarSet(id: int): (r: seq<int>)
    ensures |r| == 1 && r[0] >= 0 && Magnitude(r[0]) == Magnitude(id)
  {
    [if id < 0 then -id else id]
  }

  /** abs_op::set_var_id: a switching variable stores its id negated. */
  function AbsVarSet(id: int): (r: seq<int>)
    ensures |r| == 1 && r[0] <= 0 && Magnitude(r[0]) == Magnitude(id)
  {
    [if id < 0 then id else -id]
  }

  /** Independents sort before switching variables under the corrected order,
      also for the first independent (id 0); as written, id 0 is not. */
  lemma RootsBeforeSwitchingVariables(a: int, b: int)
    requires b != 0
    ensures AbsCmp(RootVarSet(a)[0], AbsVarSet(b)[0])
    ensures a == 0 ==> !AbsCmpAsWritten(RootVarSet(a)[0], AbsVarSet(b)[0])
  {
  }

  // ---------------------------------------------------------------------
  // boolOp

  function GetVal(b: bool): (r: int)
    ensures r == 1 || r == -1
    ensures r > 0 <==> b
  {
    if b then 1 else -1
  }

  /** Comparison codes 0..5: ==, !=, <=, <, >=, >; any other code is false. */
  function CompareReal(op: int, left: real, right: real): bool
  {
    match op
    case 0 => left == right
    case 1 => left != right
    case 2 => left <= right
    case 3 => left < right
    case 4 => left >= right
    case 5 => left > right
    case _ => false
  }

  /** Logical codes 6 (and) and 7 (or); any other code is false. */
  function CompareBool(op: int, left: bool, right: bool): bool
  {
    match op
    case 6 => left && right
    case 7 => left || right
    case _ => false
  }

  /** The codes come in complementary and mirrored pairs. */
  lemma CompareCodes(l: real, r: real)
    ensures CompareReal(1, l, r) == !CompareReal(0, l, r)
    ensures CompareReal(3, l, r) == !CompareReal(4, l, r)
    ensures CompareReal(5, l, r) == !CompareReal(2, l, r)
    ensures CompareReal(4, l, r) == CompareReal(2, r, l)
    ensures CompareReal(5, l, r) == CompareReal(3, r, l)
    ensures forall op :: op < 0 || op > 5 ==> !CompareReal(op, l, r)
  {
  }

  lemma CompareBoolCodes(l: bool, r: bool)
    ensures CompareBool(6, l, r) == !CompareBool(7, !l, !r)
    ensures forall op :: op != 6 && op != 7 ==> !CompareBool(op, l, r)
  {
  }
}
