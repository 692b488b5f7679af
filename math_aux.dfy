/** Abs-based smooth-form helpers of the AD layer: clipping, ReLU and the
    binary and n-ary maximum and minimum, written exactly as sums of
    absolute values so that they stay piecewise linear. */
module MathAux {
  import opened Wrappers

  function Abs(x: real): real { if x < 0.0 then -x else x }

  /** (a + b + |a - x| - |b - x|) / 2: for a <= b this clamps x into [a, b]. */
  function ClippedFunc(a: real, x: real, b: real): (r: real)
    ensures a <= b ==> (x <= a ==> r == a) && (b <= x ==> r == b) && (a <= x <= b ==> r == x)
    ensures (a <= b ==> a <= r <= b) && (b <= a ==> b <= r <= a)
  {
    (a + b + Abs(a - x) - Abs(b - x)) / 2.0
  }

  /** (x + |x|) / 2 is the positive part of x. */
  function Relu(x: real): (r: real)
    ensures r >= 0.0 && r >= x
    ensures r == x || r == 0.0
  {
    (x + Abs(x)) / 2.0
  }

  function Max2(u: real, w: real): (r: real)
    ensures r >= u && r >= w
    ensures r == u || r == w
  {
    (u + w + Abs(w - u)) / 2.0
  }

  function Min2(u: real, w: real): (r: real)
    ensures r <= u && r <= w
    ensures r == u || r == w
  {
    (u + w - Abs(w - u)) / 2.0
  }

  /** Pairwise maxima of consecutive entries (the even-length step). */
  function PairMax(s: seq<real>): (r: seq<real>)
    requires |s| % 2 == 0
    ensures |r| == |s| / 2
    ensures forall i :: 0 <= i < |r| ==> r[i] == Max2(s[2 * i], s[2 * i + 1])
  {
    if |s| == 0 then [] else [Max2(s[0], s[1])] + PairMax(s[2..])
  }

  function PairMin(s: seq<real>): (r: seq<real>)
    requires |s| % 2 == 0
    ensures |r| == |s| / 2
    ensures forall i :: 0 <= i < |r| ==> r[i] == Min2(s[2 * i], s[2 * i + 1])
  {
    if |s| == 0 then [] else [Min2(s[0], s[1])] + PairMin(s[2..])
  }

  /** The n-ary maximum: None without arguments, otherwise built from Max2 by
      splitting off the first argument (odd count) or by pairing (even count). */
  function Maximum(args: seq<real>): (r: Option<real>)
    ensures r.None? <==> |args| == 0
    decreases |args|
  {
    if |args| == 0 then None
    else if |args| == 1 then Some(args[0])
    else if |args| == 2 then Some(Max2(args[0], args[1]))
    else if |args| % 2 == 1 then Some(Max2(args[0], Maximum(args[1..]).value))
    else Maximum(PairMax(args))
  }

  function Minimum(args: seq<real>): (r: Option<real>)
    ensures r.None? <==> |args| == 0
    decreases |args|
  {
    if |args| == 0 then None
    else if |args| == 1 then Some(args[0])
    else if |args| == 2 then Some(Min2(args[0], args[1]))
    else if |args| % 2 == 1 then Some(Min2(args[0], Minimum(args[1..]).value))
    else Minimum(PairMin(args))
  }

  /** Maximum returns one of its arguments and no argument exceeds it. */
  lemma {:induction false} MaximumIsMax(args: seq<real>)
    requires |args| > 0
    ensures Maximum(args).value in args
    ensures forall a :: a in args ==> a <= Maximum(args).value
    decreases |args|
  {
    if |args| <= 2 {
    } else if |args| % 2 == 1 {
      MaximumIsMax(args[1..]);
      HeadMaxBound(args, Maximum(args[1..]).value);
    } else {
      assert Maximum(args) == Maximum(PairMax(args));
      MaximumIsMax(PairMax(args));
      PairMaxBound(args, Maximum(PairMax(args)).value);
    }
  }

  /** The first argument against the extreme m of the others. */
  lemma HeadMaxBound(args: seq<real>, m: real)
    requires |args| > 1 && m in args[1..] && forall a :: a in args[1..] ==> a <= m
    ensures Max2(args[0], m) in args && forall a :: a in args ==> a <= Max2(args[0], m)
  {
    assert args == [args[0]] + args[1..];
    forall a | a in args ensures a <= Max2(args[0], m) {
      if a != args[0] { assert a in args[1..]; }
    }
  }

  /** The extreme m of the pairs is one of the arguments and bounds them all. */
  lemma PairMaxBound(args: seq<real>, m: real)
    requires |args| % 2 == 0 && m in PairMax(args) && forall a :: a in PairMax(args) ==> a <= m
    ensures m in args && forall a :: a in args ==> a <= m
  {
    var p := PairMax(args);
    var k :| 0 <= k < |p| && p[k] == m;
    assert m == args[2 * k] || m == args[2 * k + 1];
    forall a | a in args ensures a <= m {
      var i :| 0 <= i < |args| && args[i] == a;
      PairCover(|args|, i);
      assert p[i / 2] in p;
    }
  }

  /** Index i of an even-length sequence is one of the pair (2 (i/2), 2 (i/2) + 1). */
  lemma PairCover(n: nat, i: nat)
    requires n % 2 == 0 && i < n
    ensures i / 2 < n / 2 && (i == 2 * (i / 2) || i == 2 * (i / 2) + 1)
  {
  }

  /** Minimum returns one of its arguments and no argument is below it. */
  lemma {:induction false} MinimumIsMin(args: seq<real>)
    requires |args| > 0
    ensures Minimum(args).value in args
    ensures forall a :: a in args ==> Minimum(args).value <= a
    decreases |args|
  {
    if |args| <= 2 {
    } else if |args| % 2 == 1 {
      MinimumIsMin(args[1..]);
      HeadMinBound(args, Minimum(args[1..]).value);
    } else {
      assert Minimum(args) == Minimum(PairMin(args));
      MinimumIsMin(PairMin(args));
      PairMinBound(args, Minimum(PairMin(args)).value);
    }
  }

  /** The first argument against the extreme m of the others. */
  lemma HeadMinBound(args: seq<real>, m: real)
    requires |args| > 1 && m in args[1..] && forall a :: a in args[1..] ==> m <= a
    ensures Min2(args[0], m) in args && forall a :: a in args ==> Min2(args[0], m) <= a
  {
    assert args == [args[0]] + args[1..];
    forall a | a in args ensures Min2(args[0], m) <= a {
      if a != args[0] { assert a in args[1..]; }
    }
  }

  /** The extreme m of the pairs is one of the arguments and bounds them all. */
  lemma PairMinBound(args: seq<real>, m: real)
    requires |args| % 2 == 0 && m in PairMin(args) && forall a :: a in PairMin(args) ==> m <= a
    ensures m in args && forall a :: a in args ==> m <= a
  {
    var p := PairMin(args);
    var k :| 0 <= k < |p| && p[k] == m;
    assert m == args[2 * k] || m == args[2 * k + 1];
    forall a | a in args ensures m <= a {
      var i :| 0 <= i < |args| && args[i] == a;
      PairCover(|args|, i);
      assert p[i / 2] in p;
    }
  }
}
