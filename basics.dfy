/** Basic helpers: the sliding-window generator, the flattening of nested
    numeric containers, and the fusion of nearby values in a list. */
module Basics {
  import opened Wrappers
  import Sorting
  import MathAux

  datatype BasicsError =
    | IndexError       // a window size of 0, or popping from an empty window
    | RuntimeError     // fusion still merging after ten passes

  // ---------------------------------------------------------------------
  // iter_window

  /** n copies of d. */
  function Pad<T>(n: nat, d: T): (r: seq<T>)
    ensures |r| == n && forall i :: 0 <= i < n ==> r[i] == d
  {
    if n == 0 then [] else [d] + Pad(n - 1, d)
  }

  /** The k-th window of size n > 0: items[k..k+n] when there are enough items,
      otherwise (only k = 0) all items padded with the default. */
  function Window<T>(items: seq<T>, n: nat, default: T, k: nat): seq<T>
    requires n > 0
  {
    if |items| < n then items + Pad(n - |items|, default)
    else if k + n <= |items| then items[k..k + n]
    else []
  }

  /** Collects every window the generator yields. The generator yields one list
      object that it keeps mutating; the model returns a snapshot of it at each
      yield. A negative size yields the empty window and then fails on the first
      further item. */
  method IterWindow<T>(items: seq<T>, n: int, default: T) returns (r: Result<seq<seq<T>>, BasicsError>)
    ensures n == 0 ==> r == Err(IndexError)
    ensures n < 0 ==> r == (if |items| == 0 then Ok([[]]) else Err(IndexError))
    ensures n > 0 ==> r.Ok? && |r.value| == 1 + (if |items| > n then |items| - n else 0)
    ensures n > 0 ==> forall k :: 0 <= k < |r.value| ==> |r.value[k]| == n && r.value[k] == Window(items, n, default, k)
  {
    if n == 0 {
      return Err(IndexError);
    }
    var args, i := FillWindow(items, n, default);
    if n < 0 {
      if |items| == 0 {
        return Ok([args]);
      }
      return Err(IndexError);
    }
    var ws := [args];
    if |items| < n {
      assert ws[0] == Window(items, n, default, 0);
      return Ok(ws);
    }
    ws := SlideWindows(items, n, default, args, ws);
    return Ok(ws);
  }

  /** The first loop of the generator: the first n items, padded with the
      default when there are fewer; nothing for n <= 0. */
  method FillWindow<T>(items: seq<T>, n: int, default: T) returns (args: seq<T>, i: nat)
    ensures n <= 0 ==> args == [] && i == 0
    ensures n > 0 ==> i == (if n < |items| then n else |items|)
    ensures n > 0 && |items| >= n ==> args == items[..n]
    ensures n > 0 && |items| < n ==> args == items + Pad(n - |items|, default)
  {
    args, i := [], 0;
    var k := 0;
    while k < n
      invariant 0 <= k && (n > 0 ==> k <= n) && (n <= 0 ==> k == 0)
      invariant i == if k < |items| then k else |items|
      invariant args == items[..i] + Pad(k - i, default)
    {
      if i < |items| {
        args := args + [items[i]];
        i := i + 1;
      } else {
        args := args + [default];
      }
      k := k + 1;
    }
    if n > 0 && |items| >= n {
      assert args == items[..n] + [];
    }
    if n > 0 && |items| < n {
      assert items[..i] == items;
    }
  }

  /** The second loop of the generator: after the first window, each further
      item drops the oldest one and is appended, and the window is yielded. */
  method SlideWindows<T>(items: seq<T>, n: nat, default: T, first: seq<T>, ws0: seq<seq<T>>) returns (ws: seq<seq<T>>)
    requires 0 < n <= |items| && first == items[..n] && ws0 == [first]
    ensures |ws| == 1 + (|items| - n)
    ensures forall j :: 0 <= j < |ws| ==> ws[j] == Window(items, n, default, j)
  {
    var args, i := first, n;
    ws := ws0;
    while i < |items|
      invariant n <= i <= |items|
      invariant args == items[i - n..i]
      invariant |ws| == 1 + (i - n)
      invariant forall j :: 0 <= j < |ws| ==> ws[j] == Window(items, n, default, j)
      decreases |items| - i
    {
      args := args[1..] + [items[i]];
      assert args == items[i + 1 - n..i + 1];
      ws := ws + [args];
      i := i + 1;
    }
  }

  // ---------------------------------------------------------------------
  // force_array / _flatten_nesting

  /** A nested numeric container: a scalar, an ndarray (given by its values in
      row-major order) or a list/tuple of further containers. */
  datatype Nested = Scalar(x: real) | NdArray(values: seq<real>) | Group(items: seq<Nested>)

  function FlattenNesting(x: Nested): seq<real>
    decreases x, 1
  {
    match x
    case Scalar(v) => [v]
    case NdArray(vs) => vs
    case Group(items) => FlattenAll(items)
  }

  function FlattenAll(items: seq<Nested>): seq<real>
    decreases items, 0
  {
    if |items| == 0 then []
    else FlattenNesting(items[0]) + FlattenAll(items[1..])
  }

  function Scalars(xs: seq<real>): (r: seq<Nested>)
    ensures |r| == |xs| && forall i :: 0 <= i < |xs| ==> r[i] == Scalar(xs[i])
  {
    if |xs| == 0 then [] else [Scalar(xs[0])] + Scalars(xs[1..])
  }

  /** Flattening distributes over the concatenation of list entries. */
  lemma {:induction false} FlattenAllAppend(a: seq<Nested>, b: seq<Nested>)
    ensures FlattenAll(a + b) == FlattenAll(a) + FlattenAll(b)
  {
    if |a| == 0 {
      assert a + b == b;
    } else {
      assert (a + b)[1..] == a[1..] + b;
      FlattenAllAppend(a[1..], b);
    }
  }

  /** A list of scalars flattens to the list of their values. */
  lemma {:induction false} FlattenScalars(xs: seq<real>)
    ensures FlattenAll(Scalars(xs)) == xs
  {
    if |xs| > 0 {
      assert Scalars(xs)[1..] == Scalars(xs[1..]);
      FlattenScalars(xs[1..]);
    }
  }

  /** Flattening is idempotent: re-wrapping the flat result and flattening
      again changes nothing. */
  lemma FlattenIdempotent(x: Nested)
    ensures FlattenNesting(Group(Scalars(FlattenNesting(x)))) == FlattenNesting(x)
  {
    FlattenScalars(FlattenNesting(x));
  }

  /** force_array: with force_1D the flattened values; otherwise a scalar
      becomes a one-element array and containers keep their nesting. */
  function ForceArray(x: Nested, force1D: bool): (r: Nested)
    ensures force1D ==> r == NdArray(FlattenNesting(x))
    ensures FlattenNesting(r) == FlattenNesting(x)
    ensures x.Scalar? ==> r.NdArray? && r.values == [x.x]
  {
    if force1D then NdArray(FlattenNesting(x))
    else match x
      case Scalar(v) => NdArray([v])
      case _ => x
  }

  // ---------------------------------------------------------------------
  // fuse

  predicate Ascending(s: seq<real>)
  {
    forall i, j :: 0 <= i < j < |s| ==> s[i] <= s[j]
  }

  function AbsDiff(a: real, b: real): real { if a < b then b - a else a - b }

  /** No two entries are closer than d. */
  predicate Separated(s: seq<real>, d: real)
  {
    forall i, j :: 0 <= i < j < |s| ==> AbsDiff(s[i], s[j]) >= d
  }

  /** Entries that are not None, in order (the list comprehension that drops
      the merged-away slots). */
  function Somes(d: seq<Option<real>>): (r: seq<real>)
    ensures |r| <= |d|
    ensures forall x :: x in r ==> Some(x) in d
  {
    if |d| == 0 then []
    else if d[0].Some? then [d[0].value] + Somes(d[1..])
    else Somes(d[1..])
  }

  function Lift(s: seq<real>): (r: seq<Option<real>>)
    ensures |r| == |s| && forall i :: 0 <= i < |s| ==> r[i] == Some(s[i])
  {
    if |s| == 0 then [] else [Some(s[0])] + Lift(s[1..])
  }

  lemma {:induction false} SomesLift(s: seq<real>)
    ensures Somes(Lift(s)) == s
  {
    if |s| > 0 {
      assert Lift(s)[1..] == Lift(s[1..]);
      SomesLift(s[1..]);
    }
  }

  lemma {:induction false} SomesShorter(d: seq<Option<real>>, p: nat)
    requires p < |d| && d[p].None?
    ensures |Somes(d)| < |d|
  {
    if p > 0 {
      SomesShorter(d[1..], p - 1);
    }
  }

  predicate AscendingSome(d: seq<Option<real>>)
  {
    forall a, b :: 0 <= a < b < |d| && d[a].Some? && d[b].Some? ==> d[a].value <= d[b].value
  }

  lemma {:induction false} SomesAscending(d: seq<Option<real>>)
    requires AscendingSome(d)
    ensures Ascending(Somes(d))
  {
    if |d| > 0 {
      SomesAscending(d[1..]);
      if d[0].Some? {
        var r := Somes(d);
        var t := Somes(d[1..]);
        forall k | 0 <= k < |t| ensures d[0].value <= t[k] {
          assert t[k] in t;
          assert Some(t[k]) in d[1..];
          var q :| 0 <= q < |d[1..]| && d[1..][q] == Some(t[k]);
          assert d[q + 1] == Some(t[k]);
        }
        forall i, j | 0 <= i < j < |r| ensures r[i] <= r[j] {
          if i > 0 {
            assert r[i] == t[i - 1] && r[j] == t[j - 1];
          } else {
            assert r[j] == t[j - 1];
          }
        }
      }
    }
  }

  /** What n entries of value x sum to. */
  function Times(n: nat, x: real): real
  {
    if n == 0 then 0.0 else Times(n - 1, x) + x
  }

  lemma {:induction false} TimesIsProduct(n: nat, x: real)
    ensures Times(n, x) == n as real * x
  {
    if n > 0 {
      TimesIsProduct(n - 1, x);
    }
  }

  /** Taking s in as the (j+1)-th member of a block whose first j members
      have mean e gives a mean whose j + 1 copies sum to j copies of e and s. */
  lemma MeanStep(j: nat, e: real, s: real)
    requires j >= 1
    ensures Times(j + 1, (j as real * e + s) / (j as real + 1.0)) == Times(j, e) + s
  {
    TimesIsProduct(j + 1, (j as real * e + s) / (j as real + 1.0));
    TimesIsProduct(j, e);
  }

  /** The new mean after adding succ as the (j+1)-th member lies between the
      old mean and succ. */
  lemma MergeBetween(j: nat, e: real, s: real)
    requires j >= 1 && e <= s
    ensures e <= (j as real * e + s) / (j as real + 1.0) <= s
  {
    var jr := j as real;
    assert jr * e + s >= jr * e + e == (jr + 1.0) * e;
    assert jr * e + s <= jr * s + s == (jr + 1.0) * s by {
      assert jr * e <= jr * s;
    }
  }

  /** The sum of a list of values. */
  function Sum(s: seq<real>): real
  {
    if |s| == 0 then 0.0 else Sum(s[..|s| - 1]) + s[|s| - 1]
  }

  /** The sum of the values present in d. */
  function SumSome(d: seq<Option<real>>): real
  {
    if |d| == 0 then 0.0 else SumSome(d[..|d| - 1]) + (if d[|d| - 1].Some? then d[|d| - 1].value else 0.0)
  }

  lemma {:induction false} SumAppend(a: seq<real>, b: seq<real>)
    ensures Sum(a + b) == Sum(a) + Sum(b)
    decreases |b|
  {
    if |b| > 0 {
      assert (a + b)[..|a + b| - 1] == a + b[..|b| - 1] && (a + b)[|a + b| - 1] == b[|b| - 1];
      SumAppend(a, b[..|b| - 1]);
    } else {
      assert a + b == a;
    }
  }

  lemma SumSomeSnoc(d: seq<Option<real>>, a: nat, b: nat)
    requires a <= b < |d| && d[b].Some?
    ensures SumSome(d[a..b + 1]) == SumSome(d[a..b]) + d[b].value
  {
    assert d[a..b + 1][..b - a] == d[a..b];
  }

  /** Slots holding exactly the values of s sum to the sum of s. */
  lemma {:induction false} SumSomeLift(d: seq<Option<real>>, s: seq<real>)
    requires |d| == |s| && forall p :: 0 <= p < |d| ==> d[p] == Some(s[p])
    ensures SumSome(d) == Sum(s)
  {
    if |d| > 0 {
      SumSomeLift(d[..|d| - 1], s[..|s| - 1]);
    }
  }

  /** out splits cur into consecutive blocks, counts[i] entries for out[i],
      and out[i] is the mean of its block: its counts[i] copies sum to the
      block's sum. */
  ghost predicate Blocks(cur: seq<real>, out: seq<real>, counts: seq<nat>)
    decreases |out|
  {
    |counts| == |out|
    && if |out| == 0 then |cur| == 0
       else var k := counts[|counts| - 1];
         && 1 <= k <= |cur| && Times(k, out[|out| - 1]) == Sum(cur[|cur| - k..])
         && Blocks(cur[..|cur| - k], out[..|out| - 1], counts[..|counts| - 1])
  }

  /** A block of k entries with mean e closes after the blocks so far. */
  lemma BlocksSnoc(a: seq<real>, out: seq<real>, counts: seq<nat>, b: seq<real>, e: real, k: nat)
    requires Blocks(a, out, counts) && |b| == k >= 1 && Times(k, e) == Sum(b)
    ensures Blocks(a + b, out + [e], counts + [k])
  {
    assert (a + b)[..|a + b| - k] == a && (a + b)[|a + b| - k..] == b;
    assert (out + [e])[..|out|] == out && (counts + [k])[..|counts|] == counts;
  }

  /** Each output weighted by its count. */
  function Weighted(out: seq<real>, counts: seq<nat>): real
    requires |counts| == |out|
  {
    if |out| == 0 then 0.0
    else Weighted(out[..|out| - 1], counts[..|counts| - 1]) + Times(counts[|counts| - 1], out[|out| - 1])
  }

  function Count(counts: seq<nat>): nat
  {
    if |counts| == 0 then 0 else Count(counts[..|counts| - 1]) + counts[|counts| - 1]
  }

  /** Merging into block means keeps the total: the outputs weighted by how
      many entries each stands for sum to the sum of the input, and the
      counts add up to its length. */
  lemma {:induction false} BlocksKeepSum(cur: seq<real>, out: seq<real>, counts: seq<nat>)
    requires Blocks(cur, out, counts)
    ensures Weighted(out, counts) == Sum(cur) && Count(counts) == |cur|
    decreases |out|
  {
    if |out| > 0 {
      var k := counts[|counts| - 1];
      var c := |cur| - k;
      BlocksKeepSum(cur[..c], out[..|out| - 1], counts[..|counts| - 1]);
      assert cur == cur[..c] + cur[c..];
      SumAppend(cur[..c], cur[c..]);
    }
  }

  predicate NoneClosedFrom(d: seq<Option<real>>, from: nat)
  {
    forall p, q :: from <= q < p < |d| && d[p].None? ==> d[q].None?
  }

  predicate SomesWithin(d: seq<Option<real>>, lo: real, hi: real)
  {
    forall p :: 0 <= p < |d| && d[p].Some? ==> lo <= d[p].value <= hi
  }

  /** The shape left by absorbing the successors of idx: the entry moved up
      to its new mean, the absorbed slots right after it are None and the
      rest is untouched. Such a list is still ascending among its live entries. */
  lemma AbsorbShape(dat0: seq<Option<real>>, dat: seq<Option<real>>, idx: nat, m: nat, entry: real, lo: real, hi: real)
    requires idx < |dat0| == |dat| && dat0[idx].Some? && idx + m < |dat0|
    requires AscendingSome(dat0) && NoneClosedFrom(dat0, idx) && SomesWithin(dat0, lo, hi)
    requires dat0[idx].value <= entry && lo <= entry <= hi
    requires dat[idx] == Some(entry)
    requires forall p :: 0 <= p < idx ==> dat[p] == dat0[p]
    requires forall p :: idx < p <= idx + m ==> dat[p].None?
    requires forall p :: idx + m < p < |dat| ==> dat[p] == dat0[p] && dat0[p].Some? && entry <= dat0[p].value
    ensures AscendingSome(dat) && NoneClosedFrom(dat, idx + 1) && SomesWithin(dat, lo, hi)
  {
    forall a, b | 0 <= a < b < |dat| && dat[a].Some? && dat[b].Some? ensures dat[a].value <= dat[b].value {
      if a < idx {
        assert dat0[a].value <= dat0[idx].value;
        if b > idx {
          assert dat0[a].value <= dat0[b].value;
        }
      } else if a > idx {
        assert dat0[a].value <= dat0[b].value;
      }
    }
  }

  /** The block a fuse pass forms at the head of s, once its first j
      entries have the running mean e: the next entry joins, and the mean
      becomes (j e + s[j]) / (j + 1), while it is closer than minDist to
      the mean; the block ends at the first entry that is not. The result
      is the block's length and its mean. */
  function Grow(s: seq<real>, minDist: real, j: nat, e: real): (r: (nat, real))
    requires 1 <= j <= |s|
    ensures j <= r.0 <= |s|
    decreases |s| - j
  {
    if j < |s| && AbsDiff(e, s[j]) < minDist then Grow(s, minDist, j + 1, (j as real * e + s[j]) / (j as real + 1.0))
    else (j, e)
  }

  /** One greedy fuse pass over an ascending list: the blocks Grow forms,
      one after the other from the front, each replaced by its mean. */
  function GreedyPass(s: seq<real>, minDist: real): (r: seq<real>)
    ensures |r| <= |s| && (|s| > 0 ==> |r| > 0)
    decreases |s|
  {
    if |s| == 0 then []
    else
      var g := Grow(s, minDist, 1, s[0]);
      [g.1] + GreedyPass(s[g.0..], minDist)
  }

  /** fuse from the list dat after tries passes: a pass that shortens the
      list is followed by another, up to ten passes; a pass that does not
      ends with dat, and a tenth pass that still shortens it fails. */
  function FuseFrom(dat: seq<real>, minDist: real, tries: nat): Result<seq<real>, BasicsError>
    decreases 10 - tries
  {
    if tries >= 10 then Err(RuntimeError)
    else
      var next := GreedyPass(dat, minDist);
      if |next| < |dat| then FuseFrom(next, minDist, tries + 1) else Ok(dat)
  }

  /** Only close entries merge: at min_dist 1e-7, 0 and 5e-8 fuse into
      their mean 2.5e-8, while 10 stays apart, and the second pass then
      finds nothing to merge. */
  lemma FuseMergesOnlyClose()
    ensures GreedyPass([0.0, 0.00000005, 10.0], 0.0000001) == [0.000000025, 10.0]
    ensures FuseFrom([0.0, 0.00000005, 10.0], 0.0000001, 0) == Ok([0.000000025, 10.0])
  {
    var s := [0.0, 0.00000005, 10.0];
    assert Grow(s, 0.0000001, 2, 0.000000025) == (2, 0.000000025);
    assert Grow(s, 0.0000001, 1, 0.0) == (2, 0.000000025);
    assert s[2..] == [10.0];
    assert GreedyPass([10.0], 0.0000001) == [10.0];
    var t := [0.000000025, 10.0];
    assert Grow(t, 0.0000001, 1, 0.000000025) == (1, 0.000000025);
    assert t[1..] == [10.0];
    assert GreedyPass(t, 0.0000001) == t;
  }

  /** Where Grow stands in the inner loop after j - 1 successors: before
      a stop the block so far is the first j entries with mean entry, and
      Grow from there gives the same block as Grow from the head; after a
      stop, the head's block is the m + 1 entries with mean entry. */
  ghost predicate GrowInv(s: seq<real>, minDist: real, j: nat, entry: real, m: nat, stopped: bool)
    requires 1 <= j <= |s|
  {
    && (!stopped ==> m == j - 1 && Grow(s, minDist, j, entry) == Grow(s, minDist, 1, s[0]))
    && (stopped ==> Grow(s, minDist, 1, s[0]) == (m + 1, entry))
  }

  lemma GrowStart(s: seq<real>, minDist: real)
    requires |s| > 0
    ensures GrowInv(s, minDist, 1, s[0], 0, false)
  {
  }

  /** The next entry, closer than minDist to the mean, joins the block. */
  lemma GrowJoin(s: seq<real>, minDist: real, j: nat, entry: real, m: nat, e: real)
    requires 1 <= j < |s| && GrowInv(s, minDist, j, entry, m, false)
    requires AbsDiff(entry, s[j]) < minDist && e == (j as real * entry + s[j]) / (j as real + 1.0)
    ensures GrowInv(s, minDist, j + 1, e, j, false)
  {
  }

  /** The next entry, at least minDist from the mean, ends the block. */
  lemma GrowHalt(s: seq<real>, minDist: real, j: nat, entry: real, m: nat, stopped: bool)
    requires 1 <= j < |s| && GrowInv(s, minDist, j, entry, m, stopped)
    requires AbsDiff(entry, s[j]) >= minDist
    ensures GrowInv(s, minDist, j + 1, entry, m, true)
  {
  }

  /** The end of s ends the block. */
  lemma GrowDone(s: seq<real>, minDist: real, entry: real, m: nat, stopped: bool)
    requires |s| > 0 && GrowInv(s, minDist, |s|, entry, m, stopped)
    ensures Grow(s, minDist, 1, s[0]) == (m + 1, entry)
  {
  }

  /** The state of the inner loop of a fuse pass after j - 1 successors of
      idx: the first m of them absorbed into entry, the rest untouched; once
      stopped, every later entry lies at least minDist above entry. */
  ghost predicate AbsorbState(dat0: seq<Option<real>>, idx: nat, minDist: real, lo: real, hi: real,
                              dat: seq<Option<real>>, entry: real, j: nat, m: nat, stopped: bool, merged: bool)
  {
    && idx < |dat0| && dat0[idx].Some? && 1 <= j <= |dat0| - idx && |dat| == |dat0|
    && (forall p :: idx < p < |dat0| ==> dat0[p].Some?)
    && (forall p :: 0 <= p < idx ==> dat[p] == dat0[p])
    && dat[idx] == Some(entry)
    && m <= j - 1
    && (forall p :: idx < p <= idx + m ==> dat[p].None?)
    && (forall p :: idx + m < p < |dat0| ==> dat[p] == dat0[p])
    && (!stopped ==> m == j - 1)
    && (stopped ==> forall p :: idx + m < p < |dat0| ==> entry + minDist <= dat0[p].value)
    && dat0[idx].value <= entry && lo <= entry <= hi
    && (forall p :: idx + m < p < |dat0| ==> entry <= dat0[p].value)
    && Times(m + 1, entry) == SumSome(dat0[idx..idx + m + 1])
    && (!merged ==> m == 0 && dat == dat0 && entry == dat0[idx].value && (j > 1 ==> stopped))
    && (merged ==> m >= 1)
    && ((forall p :: idx < p < |dat0| ==> AbsDiff(dat0[idx].value, dat0[p].value) >= minDist) ==> !merged)
  }

  /** A successor closer than minDist to entry comes before any stop, and
      lies at or above entry. */
  lemma AbsorbClose(dat0: seq<Option<real>>, idx: nat, minDist: real, lo: real, hi: real,
                    dat: seq<Option<real>>, entry: real, j: nat, m: nat, stopped: bool, merged: bool)
    requires AbsorbState(dat0, idx, minDist, lo, hi, dat, entry, j, m, stopped, merged)
    requires idx + j < |dat0| && AbsDiff(entry, dat0[idx + j].value) < minDist
    ensures !stopped && m == j - 1 && entry <= dat0[idx + j].value
  {
  }

  /** Absorbing the successor idx + j, closer than minDist to entry, into
      the new mean e keeps the state. */
  lemma AbsorbMerge(dat0: seq<Option<real>>, idx: nat, minDist: real, lo: real, hi: real,
                    dat: seq<Option<real>>, entry: real, e: real, j: nat, m: nat, stopped: bool, merged: bool)
    requires AscendingSome(dat0) && SomesWithin(dat0, lo, hi)
    requires AbsorbState(dat0, idx, minDist, lo, hi, dat, entry, j, m, stopped, merged)
    requires idx + j < |dat0| && AbsDiff(entry, dat0[idx + j].value) < minDist
    requires !stopped && m == j - 1
    requires entry <= e <= dat0[idx + j].value && Times(j + 1, e) == Times(j, entry) + dat0[idx + j].value
    ensures AbsorbState(dat0, idx, minDist, lo, hi, dat[idx := Some(e)][idx + j := None], e, j + 1, j, stopped, true)
  {
    var succ := dat0[idx + j].value;
    SumSomeSnoc(dat0, idx, idx + j);
    assert succ <= hi;
    forall p | idx + j < p < |dat0| ensures e <= dat0[p].value {
      assert succ <= dat0[p].value;
    }
    assert merged || AbsDiff(dat0[idx].value, succ) < minDist;
  }

  /** A successor at least minDist above entry stops the absorbing. */
  lemma AbsorbStop(dat0: seq<Option<real>>, idx: nat, minDist: real, lo: real, hi: real,
                   dat: seq<Option<real>>, entry: real, j: nat, m: nat, stopped: bool, merged: bool)
    requires AscendingSome(dat0)
    requires AbsorbState(dat0, idx, minDist, lo, hi, dat, entry, j, m, stopped, merged)
    requires idx + j < |dat0| && AbsDiff(entry, dat0[idx + j].value) >= minDist
    ensures AbsorbState(dat0, idx, minDist, lo, hi, dat, entry, j + 1, m, true, merged)
  {
    if !stopped {
      var succ := dat0[idx + j].value;
      assert entry <= succ && entry + minDist <= succ;
      forall p | idx + m < p < |dat0| ensures entry + minDist <= dat0[p].value {
        assert succ <= dat0[p].value || p == idx + j;
      }
    }
  }

  /** What absorbing the successors of idx achieves: the m entries after
      idx are folded into the mean now at idx, whose m + 1 copies sum to the
      values they replace, and the rest of the list is untouched. */
  ghost predicate Absorbed(dat0: seq<Option<real>>, idx: nat, minDist: real, lo: real, hi: real,
                           dat: seq<Option<real>>, merged: bool, m: nat)
    requires idx < |dat0| && dat0[idx].Some?
  {
    |dat| == |dat0| && AscendingSome(dat) && NoneClosedFrom(dat, idx + 1) && SomesWithin(dat, lo, hi)
    && (forall p :: 0 <= p < idx ==> dat[p] == dat0[p])
    && (!merged ==> dat == dat0)
    && (!merged ==> forall p :: idx < p < |dat0| ==> dat0[p].Some? && AbsDiff(dat0[idx].value, dat0[p].value) >= minDist)
    && (merged ==> idx + 1 < |dat| && dat[idx + 1].None?)
    && ((forall p :: idx < p < |dat0| && dat0[p].Some? ==> AbsDiff(dat0[idx].value, dat0[p].value) >= minDist) ==> !merged)
    && idx + m < |dat| && dat[idx].Some? && Times(m + 1, dat[idx].value) == SumSome(dat0[idx..idx + m + 1])
    && (forall p :: idx < p <= idx + m ==> dat[p].None?)
    && (forall p :: idx + m < p < |dat0| ==> dat[p] == dat0[p])
    && (merged <==> m > 0)
  }

  /** The inner loop's state once every successor was visited gives what
      AbsorbSuccessors promises. */
  lemma AbsorbEnd(dat0: seq<Option<real>>, idx: nat, minDist: real, lo: real, hi: real,
                  dat: seq<Option<real>>, entry: real, m: nat, stopped: bool, merged: bool)
    requires idx < |dat0| && AscendingSome(dat0) && NoneClosedFrom(dat0, idx) && SomesWithin(dat0, lo, hi)
    requires AbsorbState(dat0, idx, minDist, lo, hi, dat, entry, |dat0| - idx, m, stopped, merged)
    ensures Absorbed(dat0, idx, minDist, lo, hi, dat, merged, m)
  {
    AbsorbShape(dat0, dat, idx, m, entry, lo, hi);
  }

  /** One step of the inner loop: the successor idx + j, of value succ, is
      absorbed when it is closer than minDist to entry. */
  method AbsorbNext(dat0: seq<Option<real>>, ghost s: seq<real>, idx: nat, minDist: real, ghost lo: real, ghost hi: real,
                    dat: seq<Option<real>>, entry: real, succ: real, j: nat, ghost m: nat, ghost stopped: bool, merged: bool)
    returns (dat': seq<Option<real>>, entry': real, merged': bool, ghost m': nat, ghost stopped': bool)
    requires AscendingSome(dat0) && SomesWithin(dat0, lo, hi)
    requires AbsorbState(dat0, idx, minDist, lo, hi, dat, entry, j, m, stopped, merged)
    requires idx + j < |dat0| && dat0[idx + j] == Some(succ)
    requires |s| == |dat0| - idx && s[j] == succ && GrowInv(s, minDist, j, entry, m, stopped)
    ensures AbsorbState(dat0, idx, minDist, lo, hi, dat', entry', j + 1, m', stopped', merged')
    ensures GrowInv(s, minDist, j + 1, entry', m', stopped')
  {
    if AbsDiff(entry, succ) < minDist {
      var e := (j as real * entry + succ) / (j as real + 1.0);
      AbsorbClose(dat0, idx, minDist, lo, hi, dat, entry, j, m, stopped, merged);
      GrowJoin(s, minDist, j, entry, m, e);
      MergeBetween(j, entry, succ);
      MeanStep(j, entry, succ);
      AbsorbMerge(dat0, idx, minDist, lo, hi, dat, entry, e, j, m, stopped, merged);
      return dat[idx := Some(e)][idx + j := None], e, true, j, stopped;
    } else {
      AbsorbStop(dat0, idx, minDist, lo, hi, dat, entry, j, m, stopped, merged);
      GrowHalt(s, minDist, j, entry, m, stopped);
      return dat, entry, merged, m, true;
    }
  }

  /** The inner loop of a fuse pass for the live entry at idx: it walks over
      the later entries (a snapshot of them) and absorbs each one closer than
      minDist into the running mean, leaving None in its slot. */
  method AbsorbSuccessors(dat0: seq<Option<real>>, ghost s: seq<real>, idx: nat, minDist: real, ghost lo: real, ghost hi: real)
    returns (dat: seq<Option<real>>, merged: bool, ghost m: nat)
    requires idx < |dat0| && dat0[idx].Some?
    requires |s| == |dat0| - idx && forall p :: 0 <= p < |s| ==> dat0[idx + p] == Some(s[p])
    requires AscendingSome(dat0) && NoneClosedFrom(dat0, idx) && SomesWithin(dat0, lo, hi)
    ensures Absorbed(dat0, idx, minDist, lo, hi, dat, merged, m)
    ensures dat[idx].Some? && Grow(s, minDist, 1, s[0]) == (m + 1, dat[idx].value)
  {
    var N := |dat0|;
    dat := dat0;
    merged := false;
    var entry := dat[idx].value;
    var tail := dat[idx + 1..];
    m := 0;
    ghost var stopped := false;
    assert forall p :: idx < p < N ==> dat0[p].Some?;
    assert dat0[idx + 0] == Some(s[0]);
    GrowStart(s, minDist);
    var j := 1;
    while j <= |tail|
      invariant 1 <= j <= |tail| + 1 && |tail| == N - idx - 1
      invariant AbsorbState(dat0, idx, minDist, lo, hi, dat, entry, j, m, stopped, merged)
      invariant GrowInv(s, minDist, j, entry, m, stopped)
    {
      assert tail[j - 1] == dat0[idx + j] == Some(s[j]);
      dat, entry, merged, m, stopped := AbsorbNext(dat0, s, idx, minDist, lo, hi, dat, entry, tail[j - 1].value, j, m, stopped, merged);
      j := j + 1;
    }
    GrowDone(s, minDist, entry, m, stopped);
    AbsorbEnd(dat0, idx, minDist, lo, hi, dat, entry, m, stopped, merged);
  }

  /** One pass of fuse over an ascending list. */
  method FusePass(cur: seq<real>, minDist: real) returns (out: seq<real>, mergers: bool, ghost counts: seq<nat>)
    requires Ascending(cur)
    ensures Ascending(out) && Blocks(cur, out, counts)
    ensures out == GreedyPass(cur, minDist) && (mergers <==> |out| < |cur|)
    ensures !mergers ==> out == cur && Separated(cur, minDist)
    ensures mergers ==> |out| < |cur|
    ensures Separated(cur, minDist) ==> !mergers
    ensures |cur| == 0 ==> out == []
    ensures |cur| > 0 ==> forall x :: x in out ==> cur[0] <= x <= cur[|cur| - 1]
  {
    var N := |cur|;
    if N == 0 {
      return [], false, [];
    }
    var dat;
    ghost var means;
    dat, mergers, means, counts := FuseScan(cur, minDist);
    out := Somes(dat);
    SomesAscending(dat);
    if mergers {
      var p :| 0 <= p < N && dat[p].None?;
      SomesShorter(dat, p);
    } else {
      SomesLift(cur);
    }
    SomesWithinAll(dat, cur[0], cur[N - 1]);
  }

  /** Every value present lies within [lo, hi] when every slot does. */
  lemma SomesWithinAll(d: seq<Option<real>>, lo: real, hi: real)
    requires SomesWithin(d, lo, hi)
    ensures forall x :: x in Somes(d) ==> lo <= x <= hi
  {
    forall x | x in Somes(d) ensures lo <= x <= hi {
      var q :| 0 <= q < |d| && d[q] == Some(x);
    }
  }

  lemma {:induction false} SomesAppend(a: seq<Option<real>>, b: seq<Option<real>>)
    ensures Somes(a + b) == Somes(a) + Somes(b)
  {
    if |a| > 0 {
      assert (a + b)[0] == a[0] && (a + b)[1..] == a[1..] + b;
      SomesAppend(a[1..], b);
    } else {
      assert a + b == b;
    }
  }

  lemma {:induction false} SomesNone(d: seq<Option<real>>)
    requires forall p :: 0 <= p < |d| ==> d[p].None?
    ensures Somes(d) == []
  {
    if |d| > 0 {
      SomesNone(d[1..]);
    }
  }

  /** Closing the block that starts at idx: its mean, in dat[idx], joins
      the means so far, and its slots after idx hold None. */
  lemma BlockSomes(before: seq<Option<real>>, dat: seq<Option<real>>, idx: nat, m: nat, means: seq<real>)
    requires |before| == |dat| && idx + m < |dat|
    requires Somes(before[..idx]) == means
    requires forall p :: 0 <= p < idx ==> dat[p] == before[p]
    requires dat[idx].Some? && forall p :: idx < p <= idx + m ==> dat[p].None?
    ensures Somes(dat[..idx + m + 1]) == means + [dat[idx].value]
  {
    assert dat[..idx] == before[..idx];
    var rest := dat[idx + 1..idx + m + 1];
    assert dat[..idx + m + 1] == dat[..idx] + ([dat[idx]] + rest);
    SomesNone(rest);
    SomesAppend([dat[idx]], rest);
    assert Somes([dat[idx]] + rest) == [dat[idx].value];
    SomesAppend(dat[..idx], [dat[idx]] + rest);
  }

  /** The block closed at idx is the next m + 1 entries of cur, whose sum
      m + 1 copies of its mean make up. */
  lemma BlockMean(cur: seq<real>, before: seq<Option<real>>, idx: nat, m: nat, e: real,
                  means: seq<real>, counts: seq<nat>)
    requires |before| == |cur| && idx + m < |cur|
    requires forall p :: idx <= p < |cur| ==> before[p] == Some(cur[p])
    requires Blocks(cur[..idx], means, counts)
    requires Times(m + 1, e) == SumSome(before[idx..idx + m + 1])
    ensures Blocks(cur[..idx + m + 1], means + [e], counts + [m + 1])
  {
    SumSomeLift(before[idx..idx + m + 1], cur[idx..idx + m + 1]);
    assert cur[..idx] + cur[idx..idx + m + 1] == cur[..idx + m + 1];
    BlocksSnoc(cur[..idx], means, counts, cur[idx..idx + m + 1], e, m + 1);
  }

  /** How far the scan has closed blocks: the blocks closed so far end at
      B, their means are the values present before B, and from B on the
      list is untouched; the slots from idx up to B were absorbed. */
  ghost predicate Closed(cur: seq<real>, dat: seq<Option<real>>, idx: nat, B: nat, means: seq<real>, counts: seq<nat>)
  {
    idx <= B <= |cur| == |dat|
    && (forall p :: idx <= p < B ==> dat[p].None?)
    && (forall p :: B <= p < |cur| ==> dat[p] == Some(cur[p]))
    && Somes(dat[..B]) == means && Blocks(cur[..B], means, counts)
  }

  lemma ClosedAbsorb(cur: seq<real>, before: seq<Option<real>>, dat: seq<Option<real>>, idx: nat, m: nat, B: nat,
                     means: seq<real>, counts: seq<nat>)
    returns (B': nat, means': seq<real>, counts': seq<nat>)
    requires Closed(cur, before, idx, B, means, counts) && idx < |cur| && before[idx].Some?
    requires |dat| == |before| && idx + m < |dat|
    requires forall p :: 0 <= p < idx ==> dat[p] == before[p]
    requires dat[idx].Some? && Times(m + 1, dat[idx].value) == SumSome(before[idx..idx + m + 1])
    requires forall p :: idx < p <= idx + m ==> dat[p].None?
    requires forall p :: idx + m < p < |before| ==> dat[p] == before[p]
    ensures B' == idx + m + 1 && means' == means + [dat[idx].value] && counts' == counts + [m + 1]
    ensures Closed(cur, dat, idx + 1, B', means', counts')
  {
    BlockSomes(before, dat, idx, m, means);
    BlockMean(cur, before, idx, m, dat[idx].value, means, counts);
    B', means', counts' := idx + m + 1, means + [dat[idx].value], counts + [m + 1];
  }

  lemma ClosedSkip(cur: seq<real>, dat: seq<Option<real>>, idx: nat, B: nat, means: seq<real>, counts: seq<nat>)
    requires Closed(cur, dat, idx, B, means, counts) && idx < |cur| && dat[idx].None?
    ensures Closed(cur, dat, idx + 1, B, means, counts)
  {
  }

  lemma ClosedEnd(cur: seq<real>, dat: seq<Option<real>>, B: nat, means: seq<real>, counts: seq<nat>)
    requires Closed(cur, dat, |cur|, B, means, counts)
    ensures Somes(dat) == means && Blocks(cur, means, counts)
  {
    assert dat[..B] == dat && cur[..B] == cur;
  }

  /** The state of the loop of a fuse pass before slot idx. */
  ghost predicate ScanState(cur: seq<real>, minDist: real, dat: seq<Option<real>>, idx: nat, mergers: bool,
                            B: nat, means: seq<real>, counts: seq<nat>)
  {
    && Ascending(cur) && 0 < |cur| && idx <= |cur| && |dat| == |cur|
    && AscendingSome(dat) && NoneClosedFrom(dat, idx) && SomesWithin(dat, cur[0], cur[|cur| - 1])
    && (!mergers ==> dat == Lift(cur) && SeparatedBefore(cur, minDist, idx))
    && (mergers ==> exists p :: 0 <= p < |cur| && dat[p].None?)
    && (Separated(cur, minDist) ==> !mergers)
    && Closed(cur, dat, idx, B, means, counts)
  }

  /** Closing the block Grow forms at idx carries the pass's blocks so far
      one block further. */
  lemma GreedyNext(cur: seq<real>, minDist: real, idx: nat, m: nat, e: real, means: seq<real>,
                    B': nat, means': seq<real>)
    requires idx < |cur| && Grow(cur[idx..], minDist, 1, cur[idx..][0]) == (m + 1, e)
    requires means + GreedyPass(cur[idx..], minDist) == GreedyPass(cur, minDist)
    requires B' == idx + m + 1 && means' == means + [e]
    ensures means' + GreedyPass(cur[B'..], minDist) == GreedyPass(cur, minDist)
  {
    GreedyHead(cur[idx..], minDist, m, e);
    assert cur[idx..][m + 1..] == cur[B'..];
    assert means + ([e] + GreedyPass(cur[B'..], minDist)) == means' + GreedyPass(cur[B'..], minDist);
  }

  /** A greedy pass starts with the mean of the block Grow forms at the head. */
  lemma GreedyHead(s: seq<real>, minDist: real, m: nat, e: real)
    requires |s| > 0 && Grow(s, minDist, 1, s[0]) == (m + 1, e)
    ensures GreedyPass(s, minDist) == [e] + GreedyPass(s[m + 1..], minDist)
  {
  }

  /** A live slot is where the closed blocks end, and from there on the
      list still holds cur. */
  lemma LiveAtBoundary(cur: seq<real>, minDist: real, dat: seq<Option<real>>, idx: nat, mergers: bool,
                       B: nat, means: seq<real>, counts: seq<nat>)
    requires ScanState(cur, minDist, dat, idx, mergers, B, means, counts) && idx < |cur| && dat[idx].Some?
    ensures B == idx
    ensures forall p :: 0 <= p < |cur| - idx ==> dat[idx + p] == Some(cur[idx..][p])
  {
  }

  /** Visiting a live slot: it absorbs its close successors and closes a
      block. */
  method ScanLive(cur: seq<real>, minDist: real, dat: seq<Option<real>>, idx: nat, mergers: bool,
                  ghost B: nat, ghost means: seq<real>, ghost counts: seq<nat>)
    returns (dat': seq<Option<real>>, mergers': bool, ghost B': nat, ghost means': seq<real>, ghost counts': seq<nat>,
             ghost m: nat, ghost e: real)
    requires ScanState(cur, minDist, dat, idx, mergers, B, means, counts) && idx < |cur| && dat[idx].Some?
    ensures ScanState(cur, minDist, dat', idx + 1, mergers', B', means', counts')
    ensures B == idx && B' == idx + m + 1 && means' == means + [e]
    ensures Grow(cur[idx..], minDist, 1, cur[idx..][0]) == (m + 1, e)
  {
    if Separated(cur, minDist) && !mergers {
      SeparatedFrom(cur, minDist, idx);
    }
    LiveAtBoundary(cur, minDist, dat, idx, mergers, B, means, counts);
    var merged: bool;
    dat', merged, m := AbsorbSuccessors(dat, cur[idx..], idx, minDist, cur[0], cur[|cur| - 1]);
    B', means', counts' := ClosedAbsorb(cur, dat, dat', idx, m, B, means, counts);
    e := dat'[idx].value;
    mergers' := mergers || merged;
    if !merged && !mergers {
      ApartFrom(cur, minDist, idx);
    }
  }

  /** The loop of one fuse pass: every entry still present absorbs the later
      entries closer than minDist. */
  method FuseScan(cur: seq<real>, minDist: real)
    returns (dat: seq<Option<real>>, mergers: bool, ghost means: seq<real>, ghost counts: seq<nat>)
    requires Ascending(cur) && |cur| > 0
    ensures |dat| == |cur| && AscendingSome(dat) && SomesWithin(dat, cur[0], cur[|cur| - 1])
    ensures !mergers ==> dat == Lift(cur) && Separated(cur, minDist)
    ensures mergers ==> exists p :: 0 <= p < |cur| && dat[p].None?
    ensures Separated(cur, minDist) ==> !mergers
    ensures Somes(dat) == means && Blocks(cur, means, counts)
    ensures means == GreedyPass(cur, minDist)
  {
    dat := Lift(cur);
    mergers := false;
    means, counts := [], [];
    ghost var B: nat := 0;
    var idx: nat := 0;
    while idx < |cur|
      invariant ScanState(cur, minDist, dat, idx, mergers, B, means, counts)
      invariant means + GreedyPass(cur[B..], minDist) == GreedyPass(cur, minDist)
    {
      dat, mergers, B, means, counts := ScanEntry(cur, minDist, dat, idx, mergers, B, means, counts);
      idx := idx + 1;
    }
    ScanDone(cur, minDist, dat, mergers, B, means, counts);
  }

  /** Once every slot was visited, the closed blocks cover the list and
      their means are the greedy pass. */
  lemma ScanDone(cur: seq<real>, minDist: real, dat: seq<Option<real>>, mergers: bool,
                 B: nat, means: seq<real>, counts: seq<nat>)
    requires ScanState(cur, minDist, dat, |cur|, mergers, B, means, counts)
    requires means + GreedyPass(cur[B..], minDist) == GreedyPass(cur, minDist)
    ensures Somes(dat) == means && Blocks(cur, means, counts)
    ensures means == GreedyPass(cur, minDist)
  {
    ClosedEnd(cur, dat, B, means, counts);
    assert cur[B..] == [];
  }

  /** One iteration of the scan: a live entry absorbs its block, a merged one is skipped. */
  method ScanEntry(cur: seq<real>, minDist: real, dat: seq<Option<real>>, idx: nat, mergers: bool,
                   ghost B: nat, ghost means: seq<real>, ghost counts: seq<nat>)
    returns (dat': seq<Option<real>>, mergers': bool, ghost B': nat, ghost means': seq<real>, ghost counts': seq<nat>)
    requires ScanState(cur, minDist, dat, idx, mergers, B, means, counts) && idx < |cur|
    requires means + GreedyPass(cur[B..], minDist) == GreedyPass(cur, minDist)
    ensures ScanState(cur, minDist, dat', idx + 1, mergers', B', means', counts')
    ensures means' + GreedyPass(cur[B'..], minDist) == GreedyPass(cur, minDist)
  {
    if dat[idx].Some? {
      ghost var m, e;
      dat', mergers', B', means', counts', m, e := ScanLive(cur, minDist, dat, idx, mergers, B, means, counts);
      GreedyNext(cur, minDist, idx, m, e, means, B', means');
    } else {
      ClosedSkip(cur, dat, idx, B, means, counts);
      dat', mergers', B', means', counts' := dat, mergers, B, means, counts;
    }
  }

  /** Every entry before idx is far enough from every later entry. */
  ghost predicate SeparatedBefore(cur: seq<real>, minDist: real, idx: nat)
  {
    forall a, b :: 0 <= a < idx && a < b < |cur| ==> AbsDiff(cur[a], cur[b]) >= minDist
  }

  /** In a separated list every entry is far enough from the later ones. */
  lemma SeparatedFrom(cur: seq<real>, minDist: real, idx: nat)
    requires Separated(cur, minDist) && idx < |cur|
    ensures forall p :: idx < p < |cur| && Lift(cur)[p].Some? ==> AbsDiff(Lift(cur)[idx].value, Lift(cur)[p].value) >= minDist
  {
  }

  /** An entry that absorbed nothing is far enough from every later one. */
  lemma ApartFrom(cur: seq<real>, minDist: real, idx: nat)
    requires idx < |cur| && SeparatedBefore(cur, minDist, idx)
    requires forall p :: idx < p < |cur| ==> Lift(cur)[p].Some? && AbsDiff(Lift(cur)[idx].value, Lift(cur)[p].value) >= minDist
    ensures SeparatedBefore(cur, minDist, idx + 1)
  {
    var l := Lift(cur);
    forall a, b | 0 <= a < idx + 1 && a < b < |cur|
      ensures AbsDiff(cur[a], cur[b]) >= minDist
    {
      if a == idx {
        assert l[idx] == Some(cur[idx]) && l[b] == Some(cur[b]);
      }
    }
  }

  /** The first and last entries of an ascending permutation of data are the
      least and greatest values of data. */
  lemma AscendingEnds(s: seq<real>, data: seq<real>, lo: real, hi: real)
    requires |s| > 0 && Ascending(s) && multiset(s) == multiset(data)
    requires lo in data && hi in data
    requires forall x :: x in data ==> lo <= x <= hi
    ensures s[0] == lo && s[|s| - 1] == hi
    ensures forall x :: x in s ==> x in data
  {
    forall x | x in s ensures x in data {
      assert x in multiset(s);
    }
    assert lo in multiset(s) && hi in multiset(s);
    assert s[0] in data && s[|s| - 1] in data;
    var i :| 0 <= i < |s| && s[i] == lo;
    var k :| 0 <= k < |s| && s[k] == hi;
    assert s[0] <= s[i] && s[k] <= s[|s| - 1];
  }

  /** The ends of the sorted list are the least and the greatest value. */
  lemma SortedEnds(data: seq<real>)
    requires |data| > 0
    ensures Ascending(Sorting.Sort(data, Sorting.RealLe))
    ensures Sorting.Sort(data, Sorting.RealLe)[0] == MathAux.Minimum(data).value
    ensures Sorting.Sort(data, Sorting.RealLe)[|data| - 1] == MathAux.Maximum(data).value
  {
    Sorting.RealLeTotalPreorder();
    var s := Sorting.Sort(data, Sorting.RealLe);
    Sorting.SortSorted(data, Sorting.RealLe);
    assert Ascending(s);
    MathAux.MinimumIsMin(data);
    MathAux.MaximumIsMax(data);
    AscendingEnds(s, data, MathAux.Minimum(data).value, MathAux.Maximum(data).value);
  }

  /** A run of merging passes: each pass shortened the list before it by
      replacing consecutive blocks of it with their means. */
  ghost predicate Merging(passes: seq<seq<real>>, blocks: seq<seq<nat>>)
    decreases blocks
  {
    |passes| == |blocks| + 1
    && (|blocks| > 0 ==>
          var n := |blocks|;
          |passes[n]| < |passes[n - 1]| && Blocks(passes[n - 1], passes[n], blocks[n - 1])
          && Merging(passes[..n], blocks[..n - 1]))
  }

  lemma MergingSnoc(passes: seq<seq<real>>, blocks: seq<seq<nat>>, next: seq<real>, counts: seq<nat>)
    requires Merging(passes, blocks)
    requires |next| < |passes[|passes| - 1]| && Blocks(passes[|passes| - 1], next, counts)
    ensures Merging(passes + [next], blocks + [counts])
  {
    assert (passes + [next])[..|passes|] == passes;
    assert (blocks + [counts])[..|blocks|] == blocks;
  }

  /** The state of fuse after tries merging passes: dat, the result of the
      last of them, is ascending and within the range of the data. */
  ghost predicate FuseState(data: seq<real>, minDist: real, sorted: seq<real>, dat: seq<real>, tries: nat,
                            passes: seq<seq<real>>, blocks: seq<seq<nat>>)
  {
    && sorted == Sorting.Sort(data, Sorting.RealLe) && tries <= 10
    && |passes| == tries + 1 && passes[0] == sorted && passes[tries] == dat && Merging(passes, blocks)
    && Ascending(dat) && |dat| <= |data|
    && (|data| > 0 ==> |sorted| > 0 && forall x :: x in dat ==> sorted[0] <= x <= sorted[|sorted| - 1])
    && (|data| == 0 ==> dat == [])
    && (Separated(sorted, minDist) ==> dat == sorted && tries == 0)
    && Greedy(passes, minDist) && FuseFrom(dat, minDist, tries) == FuseFrom(sorted, minDist, 0)
  }

  /** Each pass is the greedy pass over the one before. */
  ghost predicate Greedy(passes: seq<seq<real>>, minDist: real)
  {
    forall i :: 0 <= i < |passes| - 1 ==> passes[i + 1] == GreedyPass(passes[i], minDist)
  }

  /** Recording the greedy pass over the last pass keeps the passes greedy. */
  lemma GreedySnoc(passes: seq<seq<real>>, minDist: real, next: seq<real>)
    requires |passes| > 0 && Greedy(passes, minDist) && next == GreedyPass(passes[|passes| - 1], minDist)
    ensures Greedy(passes + [next], minDist)
  {
    forall i | 0 <= i < |passes| ensures (passes + [next])[i + 1] == GreedyPass((passes + [next])[i], minDist) {
      assert (passes + [next])[i] == passes[i];
    }
  }

  /** A pass that shortens the list hands fuse on to the shorter list. */
  lemma FuseFromNext(dat: seq<real>, minDist: real, tries: nat, next: seq<real>)
    requires tries < 10 && next == GreedyPass(dat, minDist) && |next| < |dat|
    ensures FuseFrom(next, minDist, tries + 1) == FuseFrom(dat, minDist, tries)
  {
  }

  /** One pass of fuse inside its loop: without mergers dat is final,
      otherwise the pass is recorded. */
  method FuseStep(data: seq<real>, minDist: real, sorted: seq<real>, dat: seq<real>, tries: nat,
                  ghost passes: seq<seq<real>>, ghost blocks: seq<seq<nat>>)
    returns (next: seq<real>, mergers: bool, ghost passes': seq<seq<real>>, ghost blocks': seq<seq<nat>>)
    requires FuseState(data, minDist, sorted, dat, tries, passes, blocks) && tries < 10
    ensures !mergers ==> Separated(dat, minDist) && passes' == passes && blocks' == blocks
    ensures !mergers ==> FuseFrom(sorted, minDist, 0) == Ok(dat)
    ensures mergers ==> FuseState(data, minDist, sorted, next, tries + 1, passes', blocks')
  {
    ghost var counts: seq<nat>;
    next, mergers, counts := FusePass(dat, minDist);
    passes', blocks' := passes, blocks;
    if mergers {
      MergingSnoc(passes, blocks, next, counts);
      GreedySnoc(passes, minDist, next);
      FuseFromNext(dat, minDist, tries, next);
      passes', blocks' := passes + [next], blocks + [counts];
      assert passes'[|passes| - 1] == dat;
      if |data| > 0 {
        assert dat[0] in dat && dat[|dat| - 1] in dat;
      }
    }
  }

  /** What fuse promises: on success an ascending, separated list within
      the range of the data, no longer than it, and the sorted data itself
      when that is already separated; the passes start from the sorted data,
      each is the greedy pass over the one before and merges blocks of it
      into their means, and fuse fails exactly when ten passes all merged,
      succeeding otherwise with the last pass: the result is FuseFrom of the
      sorted data. */
  ghost predicate Fused(data: seq<real>, minDist: real, r: Result<seq<real>, BasicsError>,
                        passes: seq<seq<real>>, blocks: seq<seq<nat>>)
  {
    && (r.Ok? ==> Ascending(r.value) && Separated(r.value, minDist) && |r.value| <= |data|)
    && (r.Ok? && |data| == 0 ==> r.value == [])
    && (r.Ok? && |data| > 0 ==> forall x :: x in r.value ==> MathAux.Minimum(data).value <= x <= MathAux.Maximum(data).value)
    && (Separated(Sorting.Sort(data, Sorting.RealLe), minDist) ==> r == Ok(Sorting.Sort(data, Sorting.RealLe)))
    && (|passes| >= 1 && passes[0] == Sorting.Sort(data, Sorting.RealLe) && Merging(passes, blocks))
    && (r.Err? <==> |passes| == 11)
    && (r.Ok? ==> |passes| <= 10 && r.value == passes[|passes| - 1])
    && Greedy(passes, minDist) && r == FuseFrom(Sorting.Sort(data, Sorting.RealLe), minDist, 0)
  }

  /** Every entry of an ascending list lies between its first and last. */
  lemma AscendingWithin(s: seq<real>)
    requires |s| > 0 && Ascending(s)
    ensures forall x :: x in s ==> s[0] <= x <= s[|s| - 1]
  {
    forall x | x in s ensures s[0] <= x <= s[|s| - 1] {
      var i :| 0 <= i < |s| && s[i] == x;
      assert s[0] <= s[i] || i == 0;
    }
  }

  /** Before the first pass the state holds the sorted data alone. */
  lemma FuseStart(data: seq<real>, minDist: real, sorted: seq<real>)
    requires sorted == Sorting.Sort(data, Sorting.RealLe)
    ensures FuseState(data, minDist, sorted, sorted, 0, [sorted], [])
    ensures |data| > 0 ==> sorted[0] == MathAux.Minimum(data).value && sorted[|data| - 1] == MathAux.Maximum(data).value
  {
    if |data| > 0 {
      SortedEnds(data);
      AscendingWithin(sorted);
    }
  }

  /** Where fuse stops: on a pass without mergers, or after ten passes
      that all merged. */
  lemma FuseEnd(data: seq<real>, minDist: real, sorted: seq<real>, dat: seq<real>, tries: nat,
                passes: seq<seq<real>>, blocks: seq<seq<nat>>, r: Result<seq<real>, BasicsError>)
    requires FuseState(data, minDist, sorted, dat, tries, passes, blocks)
    requires |data| > 0 ==> sorted[0] == MathAux.Minimum(data).value && sorted[|sorted| - 1] == MathAux.Maximum(data).value
    requires || (r == Ok(dat) && tries < 10 && Separated(dat, minDist) && FuseFrom(sorted, minDist, 0) == Ok(dat))
             || (r == Err(RuntimeError) && tries == 10)
    ensures Fused(data, minDist, r, passes, blocks)
  {
  }

  /** fuse: sorts the values and merges entries closer than minDist into their
      mean, pass after pass, failing when the tenth pass still merges. The
      ghost passes are the sorted list followed by the result of every pass
      that merged. */
  method Fuse(data: seq<real>, minDist: real)
    returns (r: Result<seq<real>, BasicsError>, ghost passes: seq<seq<real>>, ghost blocks: seq<seq<nat>>)
    ensures Fused(data, minDist, r, passes, blocks)
  {
    var sorted := Sorting.Sort(data, Sorting.RealLe);
    FuseStart(data, minDist, sorted);
    var dat := sorted;
    var tries := 0;
    passes, blocks := [sorted], [];
    while tries < 10
      invariant FuseState(data, minDist, sorted, dat, tries, passes, blocks)
    {
      var next, mergers;
      ghost var passes', blocks';
      next, mergers, passes', blocks' := FuseStep(data, minDist, sorted, dat, tries, passes, blocks);
      passes, blocks := passes', blocks';
      if !mergers {
        r := Ok(dat);
        FuseEnd(data, minDist, sorted, dat, tries, passes, blocks, r);
        return;
      }
      dat := next;
      tries := tries + 1;
    }
    r := Err(RuntimeError);
    FuseEnd(data, minDist, sorted, dat, tries, passes, blocks, r);
  }
}
