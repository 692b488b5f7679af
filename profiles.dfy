/** The data tables of the simulator's boundary profiles
    (simulator/resources/profiles.py): a table of time points and values,
    read back piecewise linearly or piecewise constantly, the latter
    optionally with short linear ramps of a fixed width before each jump.
    Lookups remember the index of the last interval they used and search on
    from there. */
module Profiles {
  import opened Wrappers
  import Sorting
  import RealFacts
  import opened Strings

  datatype Mode = Pc | Lin

  // ---------------------------------------------------------------------
  // Parsing the mode

  const PcNames: set<string> := {"piecewise constant", "pc"}
  const LinNames: set<string> := {"interpolate", "lin", "pl", "piecewise linear"}

  /** Lines 46-52: the mode, case-insensitively. */
  function ParseMode(mode: string): (r: Result<Mode, string>)
  {
    var m := Lower(mode);
    if m in PcNames then Ok(Pc)
    else if m in LinNames then Ok(Lin)
    else Err("mode has to be from ['piecewise constant', 'interpolate']!")
  }

  /** The mode is read without regard to case. */
  lemma ParseModeIgnoresCase()
    ensures ParseMode("PC") == Ok(Pc) && ParseMode("Lin") == Ok(Lin) && ParseMode("step").Err?
  {
    assert Lower("PC") == "pc";
    assert Lower("Lin") == "lin";
    assert Lower("step") == "step";
  }

  // ---------------------------------------------------------------------
  // Sorting the table

  /** Python's order on (time, value) tuples: by time, then by value. */
  function PairLe(a: (real, real), b: (real, real)): bool
  {
    a.0 < b.0 || (a.0 == b.0 && a.1 <= b.1)
  }

  lemma PairLeTotalPreorder()
    ensures Sorting.TotalPreorder(PairLe)
  {
  }

  function Zip(a: seq<real>, b: seq<real>): (r: seq<(real, real)>)
    requires |a| == |b|
    ensures |r| == |a| && forall i :: 0 <= i < |a| ==> r[i] == (a[i], b[i])
  {
    if a == [] then [] else [(a[0], b[0])] + Zip(a[1..], b[1..])
  }

  function Times(ps: seq<(real, real)>): (r: seq<real>)
    ensures |r| == |ps| && forall i :: 0 <= i < |ps| ==> r[i] == ps[i].0
  {
    if ps == [] then [] else [ps[0].0] + Times(ps[1..])
  }

  function Values(ps: seq<(real, real)>): (r: seq<real>)
    ensures |r| == |ps| && forall i :: 0 <= i < |ps| ==> r[i] == ps[i].1
  {
    if ps == [] then [] else [ps[0].1] + Values(ps[1..])
  }

  predicate Ascending(s: seq<real>)
  {
    forall i, j :: 0 <= i < j < |s| ==> s[i] <= s[j]
  }

  predicate Increasing(s: seq<real>)
  {
    forall i, j :: 0 <= i < j < |s| ==> s[i] < s[j]
  }

  /** Each entry after its predecessor (strictly, if strict). */
  predicate Stepwise(s: seq<real>, strict: bool)
  {
    forall i :: 0 < i < |s| ==> InOrder(s[i - 1], s[i], strict)
  }

  predicate InOrder(a: real, b: real, strict: bool)
  {
    if strict then a < b else a <= b
  }

  /** Neighbouring entries in order are enough for the whole sequence. */
  lemma {:induction false} AdjacentAscending(s: seq<real>, strict: bool)
    requires Stepwise(s, strict)
    ensures Ascending(s) && (strict ==> Increasing(s))
    decreases |s|
  {
    if |s| > 1 {
      var p := s[..|s| - 1];
      AdjacentAscending(p, strict);
      forall i, j | 0 <= i < j < |s|
        ensures s[i] <= s[j] && (strict ==> s[i] < s[j])
      {
        if j < |s| - 1 {
          assert s[i] == p[i] && s[j] == p[j];
        } else if i < |s| - 2 {
          assert s[i] == p[i] && s[|s| - 2] == p[|s| - 2];
        }
      }
    }
  }

  /** Line 41: the pairs sorted as tuples. */
  function SortPairs(ts: seq<real>, fs: seq<real>): (r: seq<(real, real)>)
    requires |ts| == |fs|
  {
    Sorting.Sort(Zip(ts, fs), PairLe)
  }

  /** The sorted table holds the same pairs, ordered by time. */
  lemma SortPairsSorted(ts: seq<real>, fs: seq<real>)
    requires |ts| == |fs|
    ensures |SortPairs(ts, fs)| == |ts|
    ensures multiset(SortPairs(ts, fs)) == multiset(Zip(ts, fs))
    ensures Ascending(Times(SortPairs(ts, fs)))
  {
    PairLeTotalPreorder();
    Sorting.SortSorted(Zip(ts, fs), PairLe);
    var r := SortPairs(ts, fs);
    forall i, j | 0 <= i < j < |r| ensures Times(r)[i] <= Times(r)[j] {
      assert PairLe(r[i], r[j]);
    }
  }

  // ---------------------------------------------------------------------
  // Smoothing the steps (lines 61-79)

  /** The table after the first n original points have been visited: a point
      further than `offset` from its predecessor is preceded by a new point
      `offset` earlier that carries the predecessor's value. */
  function SmoothPrefix(ts: seq<real>, fs: seq<real>, offset: real, n: nat): (r: (seq<real>, seq<real>))
    requires 1 <= n <= |ts| == |fs|
    ensures |r.0| == |r.1| >= n
    ensures r.0[0] == ts[0] && r.1[0] == fs[0]
    ensures r.0[|r.0| - 1] == ts[n - 1] && r.1[|r.1| - 1] == fs[n - 1]
  {
    if n == 1 then ([ts[0]], [fs[0]])
    else
      var p := SmoothPrefix(ts, fs, offset, n - 1);
      if ts[n - 2] < ts[n - 1] - offset then
        (p.0 + [ts[n - 1] - offset, ts[n - 1]], p.1 + [fs[n - 2], fs[n - 1]])
      else
        (p.0 + [ts[n - 1]], p.1 + [fs[n - 1]])
  }

  function Smoothed(ts: seq<real>, fs: seq<real>, offset: real): (seq<real>, seq<real>)
    requires 1 <= |ts| == |fs|
  {
    SmoothPrefix(ts, fs, offset, |ts|)
  }

  /** Lines 63-79 as a loop. */
  method Smooth(ts: seq<real>, fs: seq<real>, offset: real) returns (newTs: seq<real>, newFs: seq<real>)
    requires 1 <= |ts| == |fs|
    ensures (newTs, newFs) == Smoothed(ts, fs, offset)
  {
    newTs, newFs := [ts[0]], [fs[0]];
    var tj, fj := ts[0], fs[0];
    var k := 1;
    while k < |ts|
      invariant 1 <= k <= |ts|
      invariant (newTs, newFs) == SmoothPrefix(ts, fs, offset, k)
      invariant tj == ts[k - 1] && fj == fs[k - 1]
    {
      var ti, fi := ts[k], fs[k];
      if tj < ti - offset {
        newTs := newTs + [ti - offset, ti];
        newFs := newFs + [fj, fi];
      } else {
        newTs := newTs + [ti];
        newFs := newFs + [fi];
      }
      tj, fj := ti, fi;
      k := k + 1;
    }
  }

  /** With a positive offset the smoothed times stay in order (strictly, if
      they were). */
  lemma {:induction false} SmoothAscending(ts: seq<real>, fs: seq<real>, offset: real, n: nat, strict: bool)
    requires 1 <= n <= |ts| == |fs| && offset > 0.0
    requires Stepwise(ts, strict)
    ensures Stepwise(SmoothPrefix(ts, fs, offset, n).0, strict)
    decreases n
  {
    if n > 1 {
      SmoothAscending(ts, fs, offset, n - 1, strict);
      var p := SmoothPrefix(ts, fs, offset, n - 1).0;
      var s := SmoothPrefix(ts, fs, offset, n).0;
      assert p[|p| - 1] == ts[n - 2];
      assert InOrder(ts[n - 2], ts[n - 1], strict);
      forall i | 0 < i < |s|
        ensures InOrder(s[i - 1], s[i], strict)
      {
        if i < |p| {
          assert s[i - 1] == p[i - 1] && s[i] == p[i];
        } else if ts[n - 2] < ts[n - 1] - offset {
          assert s == p + [ts[n - 1] - offset, ts[n - 1]];
          if i == |p| {
            assert s[i - 1] == ts[n - 2] && s[i] == ts[n - 1] - offset;
          } else {
            assert s[i - 1] == ts[n - 1] - offset && s[i] == ts[n - 1];
          }
        } else {
          assert s == p + [ts[n - 1]];
          assert s[i - 1] == ts[n - 2] && s[i] == ts[n - 1];
        }
      }
    }
  }

  /** Where the k-th original point sits in the smoothed table. */
  function Pos(ts: seq<real>, fs: seq<real>, offset: real, k: nat): nat
    requires k < |ts| == |fs|
  {
    |SmoothPrefix(ts, fs, offset, k + 1).0| - 1
  }

  /** A later prefix extends an earlier one. */
  lemma {:induction false} SmoothPrefixGrows(ts: seq<real>, fs: seq<real>, offset: real, m: nat, n: nat)
    requires 1 <= m <= n <= |ts| == |fs|
    ensures var a := SmoothPrefix(ts, fs, offset, m);
            var b := SmoothPrefix(ts, fs, offset, n);
            |a.0| <= |b.0| && b.0[..|a.0|] == a.0 && b.1[..|a.1|] == a.1
    decreases n - m
  {
    if m < n {
      SmoothPrefixGrows(ts, fs, offset, m, n - 1);
      var a := SmoothPrefix(ts, fs, offset, m);
      var c := SmoothPrefix(ts, fs, offset, n - 1);
      var b := SmoothPrefix(ts, fs, offset, n);
      assert b.0[..|c.0|] == c.0 && b.1[..|c.1|] == c.1;
      assert b.0[..|a.0|] == b.0[..|c.0|][..|a.0|];
      assert b.1[..|a.1|] == b.1[..|c.1|][..|a.1|];
    }
  }

  /** Every original point is in the smoothed table, in its original order;
      between two of them at most one point is inserted, `offset` before
      the later one and carrying the value of the earlier one. */
  lemma SmoothPoints(ts: seq<real>, fs: seq<real>, offset: real, k: nat)
    requires 1 <= |ts| == |fs| && k < |ts|
    ensures var s := Smoothed(ts, fs, offset);
            Pos(ts, fs, offset, k) < |s.0| && s.0[Pos(ts, fs, offset, k)] == ts[k] && s.1[Pos(ts, fs, offset, k)] == fs[k]
    ensures var s := Smoothed(ts, fs, offset);
            k == 0 ==> Pos(ts, fs, offset, k) == 0
    ensures var s := Smoothed(ts, fs, offset);
            k > 0 && ts[k - 1] < ts[k] - offset ==>
              Pos(ts, fs, offset, k) == Pos(ts, fs, offset, k - 1) + 2
              && s.0[Pos(ts, fs, offset, k) - 1] == ts[k] - offset && s.1[Pos(ts, fs, offset, k) - 1] == fs[k - 1]
    ensures k > 0 && ts[k - 1] >= ts[k] - offset ==> Pos(ts, fs, offset, k) == Pos(ts, fs, offset, k - 1) + 1
    ensures k == |ts| - 1 ==> Pos(ts, fs, offset, k) == |Smoothed(ts, fs, offset).0| - 1
  {
    var s := Smoothed(ts, fs, offset);
    var b := SmoothPrefix(ts, fs, offset, k + 1);
    SmoothPrefixGrows(ts, fs, offset, k + 1, |ts|);
    assert s.0[Pos(ts, fs, offset, k)] == s.0[..|b.0|][|b.0| - 1];
    assert s.1[Pos(ts, fs, offset, k)] == s.1[..|b.1|][|b.1| - 1];
    if k > 0 && ts[k - 1] < ts[k] - offset {
      assert s.0[Pos(ts, fs, offset, k) - 1] == s.0[..|b.0|][|b.0| - 2];
      assert s.1[Pos(ts, fs, offset, k) - 1] == s.1[..|b.1|][|b.1| - 2];
    }
  }

  // ---------------------------------------------------------------------
  // Slopes (lines 90-92)

  /** The slope of the segment ending at point i. Where two times coincide
      numpy's division yields inf or nan; the model puts 0 there. */
  function SlopeAt(ts: seq<real>, fs: seq<real>, i: nat): real
    requires 1 <= i < |ts| == |fs|
  {
    if ts[i] == ts[i - 1] then 0.0 else (fs[i] - fs[i - 1]) / (ts[i] - ts[i - 1])
  }

  predicate SlopesOf(ts: seq<real>, fs: seq<real>, slopes: seq<real>)
    requires |ts| == |fs|
  {
    |slopes| == |ts| + 1 && slopes[0] == 0.0 && slopes[|ts|] == 0.0
    && forall i :: 1 <= i < |ts| ==> slopes[i] == SlopeAt(ts, fs, i)
  }

  /** Lines 90-92: a zero buffer one longer than the table, entry i the
      slope of the segment that ends at point i. */
  method Slopes(ts: seq<real>, fs: seq<real>) returns (slopes: seq<real>)
    requires |ts| == |fs|
    ensures SlopesOf(ts, fs, slopes)
  {
    var a := new real[|ts| + 1](_ => 0.0);
    var i := 1;
    while i < |ts|
      invariant 1 <= i && (|ts| >= 1 ==> i <= |ts|)
      invariant a[0] == 0.0 && a[|ts|] == 0.0
      invariant forall k :: 1 <= k < i && k < |ts| ==> a[k] == SlopeAt(ts, fs, k)
    {
      a[i] := if ts[i] == ts[i - 1] then 0.0 else (fs[i] - fs[i - 1]) / (ts[i] - ts[i - 1]);
      i := i + 1;
    }
    slopes := a[..];
  }

  /** Each segment's line passes through both of its end points. */
  lemma SlopesThrough(ts: seq<real>, fs: seq<real>, slopes: seq<real>)
    requires |ts| == |fs| && SlopesOf(ts, fs, slopes)
    ensures forall i :: 1 <= i < |ts| && ts[i - 1] < ts[i] ==>
              fs[i - 1] + slopes[i] * (ts[i] - ts[i - 1]) == fs[i]
  {
    forall i | 1 <= i < |ts| && ts[i - 1] < ts[i]
      ensures fs[i - 1] + slopes[i] * (ts[i] - ts[i - 1]) == fs[i]
    {
      assert slopes[i] == SlopeAt(ts, fs, i);
      SlopeThrough(fs[i - 1], fs[i], ts[i] - ts[i - 1]);
    }
  }

  lemma SlopeThrough(a: real, b: real, d: real)
    requires d > 0.0
    ensures a + ((b - a) / d) * d == b
  {
  }

  // ---------------------------------------------------------------------
  // The table after construction (lines 23-104)

  datatype Setup = Setup(ts: seq<real>, fs: seq<real>, mode: Mode, offset: Option<real>,
                         horizonDiameter: real, slopes: seq<real>)

  /** Whether a lookup interpolates within a segment (line 147). */
  predicate Interpolating(mode: Mode, offset: Option<real>)
  {
    mode == Lin || (offset.Some? && offset.value > 0.0)
  }

  /** Three minutes in seconds, the default smoothing offset (line 26). */
  const DefaultOffset: real := 180.0

  /** Lines 39-43: the table sorted by time. */
  function Prepared(tp: seq<real>, fv: seq<real>): (r: (seq<real>, seq<real>))
    requires |tp| == |fv|
  {
    var sorted := SortPairs(tp, fv);
    (Times(sorted), Values(sorted))
  }

  lemma PreparedSorted(tp: seq<real>, fv: seq<real>)
    requires |tp| == |fv|
    ensures var r := Prepared(tp, fv);
            |r.0| == |r.1| == |tp| && Ascending(r.0) && Zip(r.0, r.1) == SortPairs(tp, fv)
  {
    SortPairsSorted(tp, fv);
  }

  /** Lines 55-58 and 81: the offset of a piecewise constant table (None
      counts as 0); a linear table has none. */
  function OffsetOf(m: Mode, smoothing: Option<real>): Option<real>
  {
    if m == Pc then Some(if smoothing.None? then 0.0 else smoothing.value) else None
  }

  /** Lines 61-79: the table after smoothing, when there is any. */
  function Table(ts: seq<real>, fs: seq<real>, off: Option<real>): (r: (seq<real>, seq<real>))
    requires 1 <= |ts| == |fs|
  {
    if off.Some? && off.value > 0.0 then Smoothed(ts, fs, off.value) else (ts, fs)
  }

  lemma TableAscending(ts: seq<real>, fs: seq<real>, off: Option<real>)
    requires 1 <= |ts| == |fs| && Ascending(ts)
    ensures |Table(ts, fs, off).0| == |Table(ts, fs, off).1| >= 1 && Ascending(Table(ts, fs, off).0)
  {
    if off.Some? && off.value > 0.0 {
      assert Stepwise(ts, false);
      SmoothAscending(ts, fs, off.value, |ts|, false);
      AdjacentAscending(Smoothed(ts, fs, off.value).0, false);
    }
  }

  /** Lines 38-104 on values: check the lengths, sort, parse the mode,
      smooth the steps, check the horizon and compute the slopes. */
  function Configure(tp: seq<real>, fv: seq<real>, mode: string, smoothing: Option<real>,
                     horizon: (real, real)): (r: Result<Setup, string>)
  {
    if |tp| < 1 || |tp| != |fv| then
      Err("len(timepoints) > 0 and len(timepoints) == len(functionValues)!")
    else
      match ParseMode(mode)
      case Err(e) => Err(e)
      case Ok(m) =>
        var off := OffsetOf(m, smoothing);
        if m == Pc && off.value < 0.0 then
          Err("smoothing offset cannot be negative (if you are using mode = 'pc')!")
        else
          var p := Prepared(tp, fv);
          var table := Table(p.0, p.1, off);
          if m == Pc && off.value == 0.0 then
            Ok(Setup(table.0, table.1, m, off, 0.0, []))
          else if horizon.0 > 0.0 || horizon.1 < 0.0 then
            Err("first horizon boundary has to be non positive and the other non negative!")
          else
            Ok(Setup(table.0, table.1, m, off, horizon.1 - horizon.0, SlopesSpec(table.0, table.1)))
  }

  /** The constructor fails exactly on an empty table or mismatched lengths,
      an unknown mode, a negative offset in piecewise constant mode, or (when
      the table is not a plain step function) a horizon that does not
      contain 0. */
  lemma ConfigureErrors(tp: seq<real>, fv: seq<real>, mode: string, smoothing: Option<real>, horizon: (real, real))
    ensures Configure(tp, fv, mode, smoothing, horizon).Err? <==>
        || |tp| < 1 || |tp| != |fv| || ParseMode(mode).Err?
        || (ParseMode(mode) == Ok(Pc) && smoothing.Some? && smoothing.value < 0.0)
        || (!(ParseMode(mode) == Ok(Pc) && (smoothing.None? || smoothing.value <= 0.0))
            && (horizon.0 > 0.0 || horizon.1 < 0.0))
  {
    if |tp| >= 1 && |tp| == |fv| {
      var pm := ParseMode(mode);
      if pm.Ok? {
        var off := OffsetOf(pm.value, smoothing);
        assert pm.value == Pc ==> (off.value < 0.0 <==> smoothing.Some? && smoothing.value < 0.0);
      }
    }
  }

  /** A table the constructor accepts is well formed, its horizon diameter
      is not negative, and without smoothing it holds exactly the given
      pairs in sorted order. */
  lemma ConfigureWellFormed(tp: seq<real>, fv: seq<real>, mode: string, smoothing: Option<real>, horizon: (real, real))
    requires Configure(tp, fv, mode, smoothing, horizon).Ok?
    ensures var s := Configure(tp, fv, mode, smoothing, horizon).value;
      && WellFormed(s) && s.horizonDiameter >= 0.0
      && (s.mode == Lin <==> ParseMode(mode) == Ok(Lin))
      && (s.mode == Pc ==> s.offset.value >= 0.0)
      && (!(s.mode == Pc && s.offset.value > 0.0) ==> Zip(s.ts, s.fs) == SortPairs(tp, fv))
  {
    var p := Prepared(tp, fv);
    PreparedSorted(tp, fv);
    TableAscending(p.0, p.1, OffsetOf(ParseMode(mode).value, smoothing));
  }

  function SlopesSpec(ts: seq<real>, fs: seq<real>): (s: seq<real>)
    requires |ts| == |fs|
    ensures SlopesOf(ts, fs, s)
  {
    seq(|ts| + 1, i requires 0 <= i <= |ts| => if 1 <= i < |ts| then SlopeAt(ts, fs, i) else 0.0)
  }

  /** A well-formed table: as many values as times, at least one point,
      times in order, and the slopes there whenever a lookup uses them. */
  predicate WellFormed(s: Setup)
  {
    |s.ts| == |s.fs| >= 1 && Ascending(s.ts)
    && (s.mode == Pc <==> s.offset.Some?)
    && (Interpolating(s.mode, s.offset) ==> SlopesOf(s.ts, s.fs, s.slopes))
  }

  // ---------------------------------------------------------------------
  // Lookup (lines 106-149, zero horizon)

  /** Lines 106-115: from the start index on, the last j with ts[j] <= t
      before the first later i with t < ts[i] (i is the last index when there
      is none, and absent when the start is the last index). */
  function Scan(ts: seq<real>, start: nat, t: real): (r: (nat, Option<nat>))
    requires start < |ts|
  {
    if start + 1 == |ts| then (start, None) else ScanFrom(ts, start + 1, t)
  }

  function ScanFrom(ts: seq<real>, i: nat, t: real): (r: (nat, Option<nat>))
    requires 1 <= i < |ts|
    decreases |ts| - i
  {
    if t < ts[i] then (i - 1, Some(i))
    else if i + 1 == |ts| then (i, Some(i))
    else ScanFrom(ts, i + 1, t)
  }

  /** The scan passes over every later point at or before t and stops at
      the first point after t. */
  lemma {:induction false} ScanFromBounds(ts: seq<real>, i: nat, t: real)
    requires 1 <= i < |ts|
    ensures var r := ScanFrom(ts, i, t);
      i - 1 <= r.0 < |ts| && r.1.Some? && r.0 <= r.1.value <= r.0 + 1 && r.1.value < |ts|
      && (forall k :: i <= k <= r.0 ==> ts[k] <= t)
      && (r.1.value == r.0 + 1 ==> t < ts[r.1.value])
      && (r.1.value == r.0 ==> r.0 == |ts| - 1)
    decreases |ts| - i
  {
    if !(t < ts[i]) && i + 1 < |ts| {
      ScanFromBounds(ts, i + 1, t);
    }
  }

  lemma ScanBounds(ts: seq<real>, start: nat, t: real)
    requires start < |ts|
    ensures var r := Scan(ts, start, t);
      start <= r.0 < |ts| && (forall k :: start < k <= r.0 ==> ts[k] <= t)
      && (r.1.None? <==> start == |ts| - 1)
      && (r.1.Some? ==> r.0 <= r.1.value <= r.0 + 1 && r.1.value < |ts|
                        && (r.1.value == r.0 + 1 ==> t < ts[r.1.value])
                        && (r.1.value == r.0 ==> r.0 == |ts| - 1))
  {
    if start + 1 < |ts| {
      ScanFromBounds(ts, start + 1, t);
    }
  }

  /** In an ordered table, a scan from any point at or before t finds the
      same interval as a scan from the start. */
  lemma {:induction false} ScanFromAnyStart(ts: seq<real>, c: nat, t: real)
    requires Ascending(ts) && 1 <= c < |ts| && ts[c - 1] <= t
    ensures ScanFrom(ts, c, t) == ScanFrom(ts, 1, t)
    decreases c
  {
    if c > 1 {
      assert ts[c - 2] <= ts[c - 1];
      ScanFromAnyStart(ts, c - 1, t);
    }
  }

  /** The value on the interval [ts[j], ts[i]) (line 147-149). */
  function Segment(s: Setup, j: nat, i: nat, t: real): real
    requires j < |s.ts| == |s.fs| && (Interpolating(s.mode, s.offset) ==> i < |s.slopes|)
  {
    if Interpolating(s.mode, s.offset) then s.fs[j] + (t - s.ts[j]) * s.slopes[i] else s.fs[j]
  }

  /** The table's value at t, found without the cached index. */
  function Interp(s: Setup, t: real): real
    requires WellFormed(s)
  {
    var last := |s.ts| - 1;
    if last == 0 then s.fs[0]
    else if t < s.ts[0] then s.fs[0]
    else if t > s.ts[last] then s.fs[last]
    else
      ScanBounds(s.ts, 0, t);
      var (j, i) := Scan(s.ts, 0, t);
      Segment(s, j, i.value, t)
  }

  /** Lines 127-149: the value at t and the new cached index, starting from
      the cached index c. */
  function LookupFrom(s: Setup, c: nat, t: real): (r: (real, nat))
    requires WellFormed(s) && c < |s.ts|
    ensures r.1 < |s.ts|
  {
    var last := |s.ts| - 1;
    if last == 0 then (s.fs[0], c)
    else if t < s.ts[c] then
      if t < s.ts[0] then (s.fs[0], c)
      else
        ScanBounds(s.ts, 0, t);
        var (j, i) := Scan(s.ts, 0, t);
        (Segment(s, j, i.value, t), i.value)
    else if t == s.ts[c] then (s.fs[c], c)
    else if t > s.ts[last] then (s.fs[last], c)
    else
      ScanBounds(s.ts, c, t);
      var (j, i) := Scan(s.ts, c, t);
      (Segment(s, j, i.value, t), j)
  }

  /** In order, ts[a] < ts[b] only for a < b; strictly in order, ts[a] <= ts[b]
      only for a <= b. */
  lemma IndexOrder(ts: seq<real>, a: nat, b: nat)
    requires a < |ts| && b < |ts|
    ensures Ascending(ts) && ts[a] < ts[b] ==> a < b
    ensures Increasing(ts) && ts[a] <= ts[b] ==> a <= b
  {
  }

  /** In a strictly increasing table the scan from the start for a stored
      time stops at that time's index. */
  lemma ScanFindsPoint(ts: seq<real>, c: nat)
    requires Increasing(ts) && 1 < |ts| && c < |ts|
    ensures Scan(ts, 0, ts[c]).0 == c
    ensures Scan(ts, 0, ts[c]).1.Some?
  {
    var t := ts[c];
    ScanBounds(ts, 0, t);
    var r := Scan(ts, 0, t);
    if r.0 > 0 {
      IndexOrder(ts, r.0, c);
    }
    if r.0 < |ts| - 1 {
      assert r.1.value == r.0 + 1;
      IndexOrder(ts, c, r.0 + 1);
    }
  }

  /** With strictly increasing times the cached index never changes a
      value: every lookup returns the table's value at t. */
  lemma CacheIrrelevant(s: Setup, c: nat, t: real)
    requires WellFormed(s) && Increasing(s.ts) && c < |s.ts|
    ensures LookupFrom(s, c, t).0 == Interp(s, t)
  {
    var last := |s.ts| - 1;
    if last > 0 && !(t < s.ts[c]) && s.ts[0] <= t <= s.ts[last] {
      if t == s.ts[c] {
        ScanFindsPoint(s.ts, c);
      } else if c > 0 {
        ScanFromAnyStart(s.ts, c + 1, t);
      }
    }
  }

  /** A table of one point is constant; before the first time the first
      value and after the last time the last value is returned. */
  lemma InterpOutside(s: Setup, t: real)
    requires WellFormed(s)
    ensures |s.ts| == 1 ==> Interp(s, t) == s.fs[0]
    ensures t < s.ts[0] ==> Interp(s, t) == s.fs[0]
    ensures t > s.ts[|s.ts| - 1] ==> Interp(s, t) == s.fs[|s.fs| - 1]
  {
  }

  /** At a stored time the stored value is returned exactly. */
  lemma InterpAtPoint(s: Setup, k: nat)
    requires WellFormed(s) && Increasing(s.ts) && k < |s.ts|
    ensures Interp(s, s.ts[k]) == s.fs[k]
  {
    var t := s.ts[k];
    if |s.ts| > 1 {
      ScanFindsPoint(s.ts, k);
    }
  }

  /** On [ts[j], ts[j+1]) a piecewise constant table without ramps returns
      fs[j], and an interpolating one a value between fs[j] and fs[j+1]. */
  lemma InterpWithin(s: Setup, j: nat, t: real)
    requires WellFormed(s) && Increasing(s.ts) && j + 1 < |s.ts| && s.ts[j] <= t < s.ts[j + 1]
    ensures !Interpolating(s.mode, s.offset) ==> Interp(s, t) == s.fs[j]
    ensures Interpolating(s.mode, s.offset) ==>
              (s.fs[j] <= Interp(s, t) <= s.fs[j + 1] || s.fs[j + 1] <= Interp(s, t) <= s.fs[j])
  {
    ScanBounds(s.ts, 0, t);
    assert Scan(s.ts, 0, t).0 == j && Scan(s.ts, 0, t).1 == Some(j + 1);
    if Interpolating(s.mode, s.offset) {
      assert Interp(s, t) == s.fs[j] + (t - s.ts[j]) * s.slopes[j + 1];
      assert s.slopes[j + 1] == (s.fs[j + 1] - s.fs[j]) / (s.ts[j + 1] - s.ts[j]);
      Between(s.fs[j], s.fs[j + 1], t - s.ts[j], s.ts[j + 1] - s.ts[j]);
    }
  }

  /** a + x (b - a) / d lies between a and b for 0 <= x < d. */
  lemma Between(a: real, b: real, x: real, d: real)
    requires 0.0 <= x < d
    ensures a <= a + x * ((b - a) / d) <= b || b <= a + x * ((b - a) / d) <= a
  {
    var q := x / d;
    assert q * d == x;
    if q >= 1.0 {
      RealFacts.MulMono(d, q, 1.0);
      assert false;
    }
    if q < 0.0 {
      RealFacts.MulMono(d, 0.0, q);
      assert false;
    }
    assert x * ((b - a) / d) == q * (b - a);
    if a <= b {
      RealFacts.MulMono(b - a, 1.0, q);
      RealFacts.MulMono(b - a, q, 0.0);
      assert 0.0 <= (b - a) * q <= b - a;
    } else {
      RealFacts.MulMono(a - b, 1.0, q);
      RealFacts.MulMono(a - b, q, 0.0);
      assert 0.0 <= (a - b) * q <= a - b;
    }
  }

  // ---------------------------------------------------------------------
  // The object

  class TableLookup {
    var ts: seq<real>
    var fs: seq<real>
    var mode: Mode
    var offset: Option<real>
    var horizonDiameter: real
    var slopes: seq<real>
    var lastTId: nat

    function Data(): Setup
      reads this
    {
      Setup(ts, fs, mode, offset, horizonDiameter, slopes)
    }

    ghost predicate Valid()
      reads this
    {
      WellFormed(Data()) && lastTId < |ts|
    }

    constructor (s: Setup)
      requires WellFormed(s)
      ensures Data() == s && lastTId == 0 && Valid()
    {
      ts, fs, mode, offset := s.ts, s.fs, s.mode, s.offset;
      horizonDiameter, slopes := s.horizonDiameter, s.slopes;
      lastTId := 0;
    }

    /** Lines 106-115. */
    method Search(start: nat, t: real) returns (j: nat, i: Option<nat>)
      requires start < |ts|
      ensures (j, i) == Scan(ts, start, t)
    {
      j, i := start, None;
      var k := start + 1;
      while k < |ts|
        invariant start + 1 <= k <= |ts|
        invariant k == start + 1 ==> j == start && i == None
        invariant k > start + 1 ==> j == k - 1 && i == Some(k - 1)
        invariant start + 1 < k < |ts| ==> Scan(ts, start, t) == ScanFrom(ts, k, t)
        invariant k == |ts| && k > start + 1 ==> Scan(ts, start, t) == (j, i)
      {
        i := Some(k);
        if t < ts[k] {
          return;
        }
        j := k;
        k := k + 1;
      }
    }

    /** Lines 127-149 (a table with zero horizon). */
    method Call(t: real) returns (v: real)
      requires Valid() && horizonDiameter == 0.0
      modifies this`lastTId
      ensures Valid()
      ensures (v, lastTId) == LookupFrom(Data(), old(lastTId), t)
    {
      ghost var c := lastTId;
      ghost var expected := LookupFrom(Data(), c, t);
      var last := |ts| - 1;
      if last == 0 {
        return fs[0];
      }
      var j: nat, i: Option<nat>;
      if t < ts[lastTId] {
        if t < ts[0] {
          return fs[0];
        }
        j, i := Search(0, t);
        ScanBounds(ts, 0, t);
        lastTId := i.value;
        assert expected == (Segment(Data(), j, i.value, t), lastTId);
      } else if t == ts[lastTId] {
        return fs[lastTId];
      } else {
        if t > ts[last] {
          return fs[last];
        }
        j, i := Search(lastTId, t);
        ScanBounds(ts, c, t);
        lastTId := j;
        assert expected == (Segment(Data(), j, i.value, t), lastTId);
      }
      v := SegmentValue(j, i.value, t);
    }

    /** Lines 147-149: on the segment from ts[j], the linear piece through
        fs[j] with the slope of segment i, or fs[j] itself. */
    method SegmentValue(j: nat, i: nat, t: real) returns (v: real)
      requires Valid() && j < |ts| && (Interpolating(mode, offset) ==> i < |slopes|)
      ensures v == Segment(Data(), j, i, t)
    {
      var d := Data();
      assert d.ts == ts && d.fs == fs && d.slopes == slopes && d.mode == mode && d.offset == offset;
      if Interpolating(mode, offset) {
        v := fs[j] + (t - ts[j]) * slopes[i];
      } else {
        v := fs[j];
      }
    }
  }

  /** Lines 23-104: a new table, or the error the constructor raises. */
  method NewTableLookup(tp: seq<real>, fv: seq<real>, mode: string, smoothing: Option<real>,
                        horizon: (real, real)) returns (r: Result<TableLookup, string>)
    ensures r.Err? <==> Configure(tp, fv, mode, smoothing, horizon).Err?
    ensures r.Err? ==> r.error == Configure(tp, fv, mode, smoothing, horizon).error
    ensures r.Ok? ==> fresh(r.value) && r.value.Valid() && r.value.lastTId == 0
                      && r.value.Data() == Configure(tp, fv, mode, smoothing, horizon).value
  {
    var c := Configure(tp, fv, mode, smoothing, horizon);
    if c.Err? {
      return Err(c.error);
    }
    ConfigureWellFormed(tp, fv, mode, smoothing, horizon);
    ConfigureShape(tp, fv, mode, smoothing, horizon);
    var p := Prepared(tp, fv);
    var ts, fs := p.0, p.1;
    var m := ParseMode(mode).value;
    var off := OffsetOf(m, smoothing);
    if m == Pc && off.value > 0.0 {
      ts, fs := Smooth(ts, fs, off.value);
    }
    assert (ts, fs) == Table(p.0, p.1, off);
    var slopes: seq<real> := [];
    var diameter := 0.0;
    if !(m == Pc && off.value == 0.0) {
      diameter := horizon.1 - horizon.0;
      slopes := Slopes(ts, fs);
      SlopesUnique(ts, fs, slopes, c.value.slopes);
    }
    assert Setup(ts, fs, m, off, diameter, slopes) == c.value;
    var t := new TableLookup(c.value);
    r := Ok(t);
  }

  /** The parts of a table the constructor accepts. */
  lemma ConfigureShape(tp: seq<real>, fv: seq<real>, mode: string, smoothing: Option<real>, horizon: (real, real))
    requires Configure(tp, fv, mode, smoothing, horizon).Ok?
    ensures 1 <= |tp| == |fv| && ParseMode(mode).Ok?
    ensures var c := Configure(tp, fv, mode, smoothing, horizon).value;
      var m := ParseMode(mode).value;
      var off := OffsetOf(m, smoothing);
      var tb := Table(Prepared(tp, fv).0, Prepared(tp, fv).1, off);
      && c.ts == tb.0 && c.fs == tb.1 && c.mode == m && c.offset == off
      && (if m == Pc && off.value == 0.0 then c.horizonDiameter == 0.0 && c.slopes == []
          else c.horizonDiameter == horizon.1 - horizon.0 && c.slopes == SlopesSpec(tb.0, tb.1))
  {
  }

  lemma SlopesUnique(ts: seq<real>, fs: seq<real>, a: seq<real>, b: seq<real>)
    requires |ts| == |fs| && SlopesOf(ts, fs, a) && SlopesOf(ts, fs, b)
    ensures a == b
  {
    assert forall i :: 0 <= i < |a| ==> a[i] == b[i];
  }
}
