/** Unit strings of the simulator's unit register: casting the numeric
    entries of the register, normalising a unit name, looking it up among
    the register's aliases, and turning a day/hour/minute/second offset into
    seconds. */
module Units {
  import opened Wrappers
  import opened Strings
  import Sorting

  // ---------------------------------------------------------------------
  // Casting register entries

  datatype CastError = ValueError | ZeroDivisionError

  /** Splits on sep and requires exactly two pieces, as the tuple
      unpacking `a, b = s.split(sep)` does. */
  function Operands(s: string, sep: string, cast: string -> Option<real>): (r: Result<(real, real), CastError>)
    requires |sep| > 0
  {
    var parts := Split(s, sep);
    if |parts| != 2 then Err(ValueError)
    else match (cast(parts[0]), cast(parts[1]))
      case (Some(x), Some(y)) => Ok((x, y))
      case _ => Err(ValueError)
  }

  /** A real quotient, refusing a zero divisor. */
  function Divide(x: real, y: real): Result<real, CastError>
  {
    if y == 0.0 then Err(ZeroDivisionError) else Ok(x / y)
  }

  datatype Operator = FloorDiv | Div | Pow | Mul

  /** The operator the entry is read with: '//' before '/' before '**'
      before '*'. */
  function OperatorOf(s: string): (r: Option<(string, Operator)>)
    ensures r.Some? ==> |r.value.0| > 0
  {
    if Contains(s, "//") then Some(("//", FloorDiv))
    else if Contains(s, "/") then Some(("/", Div))
    else if Contains(s, "**") then Some(("**", Pow))
    else if Contains(s, "*") then Some(("*", Mul))
    else None
  }

  function Apply(op: Operator, x: real, y: real,
                 power: (real, real) -> Result<real, CastError>): Result<real, CastError>
  {
    match op
    case FloorDiv => Divide(x, y)
    case Div => Divide(x, y)
    case Pow => power(x, y)
    case Mul => Ok(x * y)
  }

  /** A numeric register entry: a quotient (written with '//' or '/'), power or
      product of two cast operands, otherwise a plain cast. `cast` is the
      target type's constructor (None when it rejects the text) and `power`
      is float exponentiation, both outside the model. */
  function AdvancedCast(s: string, cast: string -> Option<real>,
                        power: (real, real) -> Result<real, CastError>): (r: Result<real, CastError>)
  {
    match OperatorOf(s)
    case None => if cast(s).Some? then Ok(cast(s).value) else Err(ValueError)
    case Some((sep, op)) =>
      var ops := Operands(s, sep, cast);
      if ops.Err? then Err(ops.error) else Apply(op, ops.value.0, ops.value.1, power)
  }

  /** The operands of a written fraction, power or product are free of the
      operator characters. */
  predicate Plain(a: string)
  {
    '/' !in a && '*' !in a
  }

  /** "a/b" is the quotient of its operands, and a zero divisor fails. */
  lemma CastQuotient(a: string, b: string, cast: string -> Option<real>,
                     power: (real, real) -> Result<real, CastError>)
    requires Plain(a) && Plain(b) && cast(a).Some? && cast(b).Some?
    ensures AdvancedCast(a + "/" + b, cast, power) == Divide(cast(a).value, cast(b).value)
  {
    NoDoubleChar(a, '/', b);
    CharContains(a + "/" + b, '/');
    SplitAround(a, "/", b);
  }

  /** "a//b" is split on "//" but divided truly, exactly as "a/b". */
  lemma CastFloorQuotient(a: string, b: string, cast: string -> Option<real>,
                          power: (real, real) -> Result<real, CastError>)
    requires Plain(a) && Plain(b) && cast(a).Some? && cast(b).Some?
    ensures AdvancedCast(a + "//" + b, cast, power) == Divide(cast(a).value, cast(b).value)
  {
    var s := a + "//" + b;
    assert OccursAt(s, "//", |a|) by {
      assert s[|a|..|a| + 2] == "//";
    }
    OccursContains(s, "//", |a|);
    SplitAround(a, "//", b);
  }

  /** "a**b" raises a to b. */
  lemma CastPower(a: string, b: string, cast: string -> Option<real>,
                  power: (real, real) -> Result<real, CastError>)
    requires Plain(a) && Plain(b) && cast(a).Some? && cast(b).Some?
    ensures AdvancedCast(a + "**" + b, cast, power) == power(cast(a).value, cast(b).value)
  {
    var s := a + "**" + b;
    assert '/' !in s;
    PairNeedsChar(s, '/', '/');
    CharContains(s, '/');
    assert OccursAt(s, "**", |a|) by {
      assert s[|a|..|a| + 2] == "**";
    }
    OccursContains(s, "**", |a|);
    SplitAround(a, "**", b);
  }

  /** "a*b" is the product of its operands. */
  lemma CastProduct(a: string, b: string, cast: string -> Option<real>,
                    power: (real, real) -> Result<real, CastError>)
    requires Plain(a) && Plain(b) && cast(a).Some? && cast(b).Some?
    ensures AdvancedCast(a + "*" + b, cast, power) == Apply(Mul, cast(a).value, cast(b).value, power)
  {
    var s := a + "*" + b;
    assert '/' !in s;
    PairNeedsChar(s, '/', '/');
    CharContains(s, '/');
    NoDoubleChar(a, '*', b);
    assert s[|a|] == '*';
    CharContains(s, '*');
    SplitAround(a, "*", b);
    assert OperatorOf(s) == Some(("*", Mul));
  }

  /** Text without operators is cast as a whole. */
  lemma CastPlain(a: string, cast: string -> Option<real>,
                  power: (real, real) -> Result<real, CastError>)
    requires Plain(a)
    ensures AdvancedCast(a, cast, power) == (if cast(a).Some? then Ok(cast(a).value) else Err(ValueError))
  {
    PairNeedsChar(a, '/', '/');
    CharContains(a, '/');
    PairNeedsChar(a, '*', '*');
    CharContains(a, '*');
  }

  /** Two chained quotients of plain operands hold no "//": each '/' is
      followed by a character of b or of c. */
  lemma NoDoubleSlashAt(a: string, b: string, c: string, j: nat)
    requires Plain(a) && Plain(b) && Plain(c) && |b| > 0
    ensures !OccursAt(a + "/" + b + "/" + c, "//", j)
  {
    var s := a + "/" + b + "/" + c;
    var second := |a| + 1 + |b|;
    if j + 2 <= |s| {
      assert s[j..j + 2][0] == s[j] && s[j..j + 2][1] == s[j + 1];
      if j < |a| {
        assert s[j] == a[j] && a[j] in a;
      } else if j == |a| {
        assert s[j + 1] == b[0] && b[0] in b;
      } else if j < second {
        assert s[j] == b[j - |a| - 1] && b[j - |a| - 1] in b;
      } else if j == second {
        assert s[j + 1] == c[0] && c[0] in c;
      } else {
        assert s[j] == c[j - second - 1] && c[j - second - 1] in c;
      }
    }
  }

  /** A third operand is refused, not evaluated left to right. */
  lemma CastChainRefused(a: string, b: string, c: string, cast: string -> Option<real>,
                         power: (real, real) -> Result<real, CastError>)
    requires Plain(a) && Plain(b) && Plain(c) && |b| > 0
    ensures AdvancedCast(a + "/" + b + "/" + c, cast, power) == Err(ValueError)
  {
    var s := a + "/" + b + "/" + c;
    assert Split(s, "/") == [a, b, c] by {
      JoinCons(b, [c], "/");
      JoinCons(a, [b, c], "/");
      assert Join([a, b, c], "/") == s;
      JoinSplit([a, b, c], '/');
    }
    forall j | 0 <= j && j + 2 <= |s| ensures !OccursAt(s, "//", j) {
      NoDoubleSlashAt(a, b, c, j);
    }
    NoOccurrenceNoFind(s, "//");
  }

  // ---------------------------------------------------------------------
  // Normalising a unit name

  datatype Failure = IndexError | UnitError(msg: string)

  /** Drops one pair of surrounding brackets, "[m/s]" -> "m/s". */
  function StripBrackets(unit: string): (r: string)
    requires |unit| > 0
    ensures |r| == |unit| || (|r| + 2 == |unit| && r == unit[1..|unit| - 1])
  {
    if unit[0] == '[' && unit[|unit| - 1] == ']' then unit[1..|unit| - 1] else unit
  }

  /** Lower-cases and spells out the written-out operators. */
  function Rewrite(unit: string): string
  {
    var u := Lower(unit);
    var u := ReplaceAll(u, "_per_", "/");
    var u := ReplaceAll(u, "_square", "^2");
    ReplaceAll(u, "_cube", "^3")
  }

  /** Replacing target by repl leaves no target behind, and no pattern q
      that avoids the characters of repl reappears. */
  lemma ReplaceAvoids(s: string, target: string, repl: string, q: string)
    requires |target| > 0 && |repl| > 0 && |q| > 0
    requires forall k :: 0 <= k < |repl| ==> repl[k] !in q
    requires q == target || !Contains(s, q)
    ensures !Contains(ReplaceAll(s, target, repl), q)
  {
    if q == target {
      SplitParts(s, target);
    } else {
      SplitPartsAvoid(s, target, q);
    }
    JoinAvoids(Split(s, target), repl, q);
  }

  /** After the rewriting no '_per_', '_square' or '_cube' is left. */
  lemma RewriteRemoves(unit: string)
    ensures !Contains(Rewrite(unit), "_per_")
    ensures !Contains(Rewrite(unit), "_square")
    ensures !Contains(Rewrite(unit), "_cube")
  {
    var u0 := Lower(unit);
    var u1 := ReplaceAll(u0, "_per_", "/");
    var u2 := ReplaceAll(u1, "_square", "^2");
    ReplaceAvoids(u0, "_per_", "/", "_per_");
    ReplaceAvoids(u1, "_square", "^2", "_square");
    ReplaceAvoids(u1, "_square", "^2", "_per_");
    ReplaceAvoids(u2, "_cube", "^3", "_cube");
    ReplaceAvoids(u2, "_cube", "^3", "_square");
    ReplaceAvoids(u2, "_cube", "^3", "_per_");
  }

  // --- exponent carets

  predicate IsPower(c: char) { c == '2' || c == '3' }

  predicate Marks(c: char) { c == '_' || c == '^' }

  /** Whether a '2' or '3' following prev still wants a caret; prev is None
      at the start of the string. */
  predicate Bare(prev: Option<char>)
  {
    prev.Some? && !Marks(prev.value)
  }

  /** Every '2' and '3' after the first character follows '_' or '^'. */
  predicate Marked(u: string)
  {
    forall p :: 1 <= p < |u| && IsPower(u[p]) ==> Marks(u[p - 1])
  }

  /** The intended rewriting: a caret before every '2' or '3' whose
      predecessor is neither '_' nor '^'; prev is the character before u. */
  function Carets(prev: Option<char>, u: string): string
    decreases |u|
  {
    if u == [] then []
    else if IsPower(u[0]) && Bare(prev) then ['^', u[0]] + Carets(Some(u[0]), u[1..])
    else [u[0]] + Carets(Some(u[0]), u[1..])
  }

  /** The string without its carets. */
  function DropCarets(u: string): (r: string)
    ensures '^' !in r
  {
    if u == [] then [] else (if u[0] == '^' then [] else [u[0]]) + DropCarets(u[1..])
  }

  /** The result of Carets is marked, and its first character is a bare
      '2' or '3' only when nothing precedes it. */
  lemma {:induction false} CaretsMarked(prev: Option<char>, u: string)
    ensures Marked(Carets(prev, u))
    ensures |Carets(prev, u)| > 0 && IsPower(Carets(prev, u)[0]) ==> !Bare(prev)
    decreases |u|
  {
    if u != [] {
      var c := u[0];
      var rest := Carets(Some(c), u[1..]);
      CaretsMarked(Some(c), u[1..]);
      var head := if IsPower(c) && Bare(prev) then ['^', c] else [c];
      var r := head + rest;
      assert r == Carets(prev, u);
      forall p | 1 <= p < |r| && IsPower(r[p]) ensures Marks(r[p - 1]) {
        if p < |head| {
          assert head == ['^', c] && p == 1;
        } else if p == |head| {
          assert r[p] == rest[0] && r[p - 1] == c;
        } else {
          assert r[p] == rest[p - |head|] && r[p - 1] == rest[p - 1 - |head|];
        }
      }
    }
  }

  /** Carets adds nothing to a string that is already marked. */
  lemma {:induction false} CaretsFixedPoint(prev: Option<char>, u: string)
    requires Marked(u)
    requires |u| > 0 && IsPower(u[0]) ==> !Bare(prev)
    ensures Carets(prev, u) == u
    decreases |u|
  {
    if u != [] {
      var t := u[1..];
      assert Marked(t) by {
        forall p | 1 <= p < |t| && IsPower(t[p]) ensures Marks(t[p - 1]) {
          assert t[p] == u[p + 1] && t[p - 1] == u[p];
        }
      }
      if |t| > 0 && IsPower(t[0]) {
        assert u[1] == t[0];
      }
      CaretsFixedPoint(Some(u[0]), t);
      assert u == [u[0]] + t;
    }
  }

  /** Inserting the carets a second time changes nothing. */
  lemma CaretsIdempotent(u: string)
    ensures Carets(None, Carets(None, u)) == Carets(None, u)
  {
    CaretsMarked(None, u);
    CaretsFixedPoint(None, Carets(None, u));
  }

  /** Carets only inserts '^' characters. */
  lemma {:induction false} CaretsOnlyInsert(prev: Option<char>, u: string)
    ensures DropCarets(Carets(prev, u)) == DropCarets(u)
    decreases |u|
  {
    if u != [] {
      CaretsOnlyInsert(Some(u[0]), u[1..]);
      var rest := Carets(Some(u[0]), u[1..]);
      if IsPower(u[0]) && Bare(prev) {
        assert (['^', u[0]] + rest)[1..] == [u[0]] + rest;
        assert ([u[0]] + rest)[1..] == rest;
      } else {
        assert ([u[0]] + rest)[1..] == rest;
      }
    }
  }

  // --- the caret loop as written

  /** The number of carets still wanted, counting a leading '2' or '3'. */
  function Pending(prev: Option<char>, u: string): nat
    decreases |u|
  {
    if u == [] then 0
    else (if IsPower(u[0]) && !(prev.Some? && Marks(prev.value)) then 1 else 0) + Pending(Some(u[0]), u[1..])
  }

  /** Inserting a caret before a wanted position lowers the count. */
  lemma {:induction false} InsertLowersPending(prev: Option<char>, u: string, p: nat)
    requires p < |u| && IsPower(u[p])
    requires if p == 0 then !(prev.Some? && Marks(prev.value)) else !Marks(u[p - 1])
    ensures Pending(prev, u[..p] + "^" + u[p..]) < Pending(prev, u)
    decreases p
  {
    var v := u[..p] + "^" + u[p..];
    if p == 0 {
      assert v == "^" + u;
      assert v[1..] == u && u == [u[0]] + u[1..];
    } else {
      InsertLowersPending(Some(u[0]), u[1..], p - 1);
      assert v[0] == u[0];
      assert v[1..] == u[1..][..p - 1] + "^" + u[1..][p - 1..];
    }
  }

  /** One pass of the enumerate loop from index k: where it breaks to insert
      a caret (at = None when it runs to the end), and the remembered
      previous position and letter at that point. */
  datatype Pass = Pass(at: Option<nat>, prepos: int, preletter: Option<char>)

  function ScanPass(u: string, k: nat, prepos: int, preletter: Option<char>): (r: Pass)
    requires k <= |u|
    ensures r.at.Some? ==> k <= r.at.value < |u| && IsPower(u[r.at.value])
    ensures r.at.Some? && r.at.value == k ==>
              r.prepos == prepos && r.preletter == preletter && prepos >= 0
              && !(preletter.Some? && Marks(preletter.value))
    ensures r.at.Some? && r.at.value > k ==> !Marks(u[r.at.value - 1])
    decreases |u| - k
  {
    if k == |u| then Pass(None, prepos, preletter)
    else if IsPower(u[k]) && prepos >= 0 && !(preletter.Some? && Marks(preletter.value)) then
      Pass(Some(k), prepos, preletter)
    else ScanPass(u, k + 1, k, Some(u[k]))
  }

  /** The repeat loop as written: passes over the string until one inserts
      nothing; the previous position and letter carry over between passes. */
  function CaretPasses(u: string, prepos: int, preletter: Option<char>): string
    decreases Pending(None, u)
  {
    var pass := ScanPass(u, 0, prepos, preletter);
    if pass.at.None? then u
    else
      var p := pass.at.value;
      InsertLowersPending(None, u, p);
      CaretPasses(u[..p] + "^" + u[p..], pass.prepos, pass.preletter)
  }

  /** The repeat loop of the unit normalisation, as written. */
  method InsertCaretsAsWritten(unit: string) returns (u: string)
    ensures u == CaretPasses(unit, -1, None)
  {
    u := unit;
    var prepos: int := -1;
    var preletter: Option<char> := None;
    var repeat := true;
    while repeat
      invariant repeat ==> CaretPasses(u, prepos, preletter) == CaretPasses(unit, -1, None)
      invariant !repeat ==> u == CaretPasses(unit, -1, None)
      decreases (if repeat then 1 else 0), Pending(None, u)
    {
      ghost var start := (prepos, preletter);
      var pos := 0;
      var inserted := false;
      while pos < |u|
        invariant pos <= |u|
        invariant ScanPass(u, 0, start.0, start.1) == ScanPass(u, pos, prepos, preletter)
      {
        var letter := u[pos];
        if IsPower(letter) && prepos >= 0 && !(preletter.Some? && Marks(preletter.value)) {
          InsertLowersPending(None, u, pos);
          u := u[..pos] + "^" + u[pos..];
          inserted := true;
          break;
        }
        prepos := pos;
        preletter := Some(letter);
        pos := pos + 1;
      }
      if !inserted {
        repeat := false;
      }
    }
  }

  // --- sorting the tokens of each group

  /** "b_a" -> "a_b": the '_'-tokens of a group in string order. */
  function SortTokens(group: string): string
  {
    if Contains(group, "_") then Join(Sorting.Sort(Split(group, "_"), StrLe), "_") else group
  }

  function SortGroups(unit: string): string
  {
    var groups := Split(unit, "/");
    Join(seq(|groups|, i requires 0 <= i < |groups| => SortTokens(groups[i])), "/")
  }

  /** The tokens of a group that does not contain '/' do not either. */
  lemma TokensAvoid(group: string, c: char)
    requires c !in group
    ensures forall k :: 0 <= k < |Split(group, "_")| ==> c !in Split(group, "_")[k]
  {
    CharContains(group, c);
    SplitPartsAvoid(group, "_", [c]);
    forall k | 0 <= k < |Split(group, "_")| ensures c !in Split(group, "_")[k] {
      CharContains(Split(group, "_")[k], c);
    }
  }

  /** Every character of a permutation comes from some element of the
      original. */
  lemma PermutationAvoids(s: seq<string>, t: seq<string>, c: char)
    requires multiset(t) == multiset(s)
    requires forall k :: 0 <= k < |s| ==> c !in s[k]
    ensures forall k :: 0 <= k < |t| ==> c !in t[k]
  {
    forall k | 0 <= k < |t| ensures c !in t[k] {
      assert t[k] in multiset(s);
    }
  }

  /** One group: its tokens come out sorted and are the same tokens. */
  lemma SortTokensSorted(group: string)
    ensures SortedBy(group, SortTokens(group))
    ensures '/' !in group ==> '/' !in SortTokens(group)
  {
    var toks := Split(group, "_");
    if Contains(group, "_") {
      var sorted := Sorting.Sort(toks, StrLe);
      StrLeTotalPreorder();
      Sorting.SortSorted(toks, StrLe);
      SplitParts(group, "_");
      assert forall k :: 0 <= k < |toks| ==> '_' !in toks[k] by {
        forall k | 0 <= k < |toks| ensures '_' !in toks[k] {
          CharContains(toks[k], '_');
        }
      }
      PermutationAvoids(toks, sorted, '_');
      JoinSplit(sorted, '_');
      if '/' !in group {
        TokensAvoid(group, '/');
        PermutationAvoids(toks, sorted, '/');
        JoinAvoidsChar(sorted, "_", '/');
      }
    } else {
      assert Find(group, "_").None?;
    }
  }

  /** What SortTokens promises about one group. */
  predicate SortedBy(group: string, out: string)
  {
    Sorting.SortedBy(Split(out, "_"), StrLe)
    && multiset(Split(out, "_")) == multiset(Split(group, "_"))
  }

  /** Splitting the result on '/' gives the same groups, each with its
      '_'-tokens sorted and unchanged as a multiset. */
  lemma GroupsSorted(unit: string)
    ensures |Split(SortGroups(unit), "/")| == |Split(unit, "/")|
    ensures forall i :: 0 <= i < |Split(unit, "/")| ==>
              SortedBy(Split(unit, "/")[i], Split(SortGroups(unit), "/")[i])
  {
    var groups := Split(unit, "/");
    var out := seq(|groups|, i requires 0 <= i < |groups| => SortTokens(groups[i]));
    SplitParts(unit, "/");
    forall i | 0 <= i < |groups| ensures '/' !in out[i] && SortedBy(groups[i], out[i]) {
      CharContains(groups[i], '/');
      SortTokensSorted(groups[i]);
    }
    JoinSplit(out, '/');
  }

  // --- the whole normalisation

  const EmptyUnit := "a unit has string length 0 which is impossible!"

  /** The normalised unit, with the caret rule as intended. */
  function Unify(unit: string): (r: Result<string, Failure>)
  {
    if unit == [] then Err(IndexError)
    else
      var u := StripBrackets(unit);
      if u == [] then Err(UnitError(EmptyUnit))
      else Ok(SortGroups(Carets(None, Rewrite(u))))
  }

  /** The normalised unit with the caret loop as written. */
  function UnifyAsWritten(unit: string): (r: Result<string, Failure>)
  {
    if unit == [] then Err(IndexError)
    else
      var u := StripBrackets(unit);
      if u == [] then Err(UnitError(EmptyUnit))
      else Ok(SortGroups(CaretPasses(Rewrite(u), -1, None)))
  }

  /** The normalisation fails exactly on "" (an index error) and on "[]". */
  lemma UnifyErrors(unit: string)
    ensures Unify(unit) == Err(IndexError) <==> unit == []
    ensures Unify(unit) == Err(UnitError(EmptyUnit)) <==> unit == "[]"
    ensures Unify(unit).Err? <==> unit == [] || unit == "[]"
  {
    if unit != [] && StripBrackets(unit) == [] {
      assert |unit| == 2;
      assert unit == [unit[0], unit[1]];
    }
  }

  /** The caret loop as written also puts a caret before a leading '2' or
      '3', but only when some other caret was inserted: "2m2" becomes
      "^2m^2" while "2m" stays as it is; the intended rule gives "2m^2". */
  lemma LeadingCaretAsWritten()
    ensures CaretPasses("2m2", -1, None) == "^2m^2"
    ensures CaretPasses("2m", -1, None) == "2m"
    ensures Carets(None, "2m2") == "2m^2"
  {
    var u := "2m2";
    assert ScanPass(u, 2, 1, Some('m')) == Pass(Some(2), 1, Some('m'));
    assert ScanPass(u, 0, -1, None) == Pass(Some(2), 1, Some('m'));
    var v := "2m^2";
    assert u[..2] + "^" + u[2..] == v;
    assert ScanPass(v, 0, 1, Some('m')) == Pass(Some(0), 1, Some('m'));
    var w := "^2m^2";
    assert v[..0] + "^" + v[0..] == w;
    assert ScanPass(w, 4, 3, Some('^')) == Pass(None, 4, Some('2'));
    assert ScanPass(w, 0, 1, Some('m')).at.None?;
    assert ScanPass("2m", 0, -1, None).at.None?;
    assert Carets(Some('m'), "2") == "^2";
    assert Carets(Some('2'), "m2") == "m^2";
  }

  // ---------------------------------------------------------------------
  // Validating a unit against the register

  /** One entry of the register: its key ("time_to_s_alias_dictionary",
      "length_to_m_conversion_factors", ...) and the unit names it lists. */
  datatype Entry = Entry(key: string, names: seq<string>)

  predicate InSpec(spec: Option<string>, key: string)
  {
    spec.None? || Contains(key, spec.value)
  }

  /** u is listed under some key that matches spec. */
  predicate Known(register: seq<Entry>, spec: Option<string>, u: string)
  {
    exists i :: 0 <= i < |register| && InSpec(spec, register[i].key) && u in register[i].names
  }

  function Unknown(unit: string, normal: string, spec: Option<string>): Failure
  {
    if spec.None? then UnitError("the unit: '" + unit + "' (normalized: '" + normal + "') is unknown!")
    else UnitError("the unit: '" + unit + "' (normalized: '" + normal + "') is unknown within spec: " + spec.value + "!")
  }

  /** The scan over the register's entries and their unit names. */
  method Lookup(u: string, spec: Option<string>, register: seq<Entry>) returns (found: bool)
    ensures found <==> Known(register, spec, u)
  {
    var i := 0;
    while i < |register|
      invariant i <= |register|
      invariant forall k :: 0 <= k < i && InSpec(spec, register[k].key) ==> u !in register[k].names
    {
      var entry := register[i];
      if spec.None? || Contains(entry.key, spec.value) {
        var j := 0;
        while j < |entry.names|
          invariant j <= |entry.names|
          invariant u !in entry.names[..j]
        {
          if u == entry.names[j] {
            return true;
          }
          j := j + 1;
        }
        assert entry.names[..j] == entry.names;
      }
      i := i + 1;
    }
    return false;
  }

  /** The normalised unit when the register knows it under a key matching
      spec; otherwise the normalisation's own failure or an unknown-unit
      error naming the spec. */
  method ValidateUnit(unit: string, spec: Option<string>, register: seq<Entry>)
    returns (r: Result<string, Failure>)
    ensures Unify(unit).Err? ==> r == Unify(unit)
    ensures Unify(unit).Ok? && Known(register, spec, Unify(unit).value) ==> r == Unify(unit)
    ensures Unify(unit).Ok? && !Known(register, spec, Unify(unit).value) ==>
              r == Err(Unknown(unit, Unify(unit).value, spec))
  {
    var normal := Unify(unit);
    if normal.Err? {
      return normal;
    }
    var found := Lookup(normal.value, spec, register);
    if found {
      return normal;
    }
    return Err(Unknown(unit, normal.value, spec));
  }

  // ---------------------------------------------------------------------
  // Relative dates

  /** The length in seconds of a day/hour/minute/second offset. */
  function DateToSec(days: real, hours: real, minutes: real, seconds: real): (r: real)
    ensures r == ((days * 24.0 + hours) * 60.0 + minutes) * 60.0 + seconds
  {
    86400.0 * days + 3600.0 * hours + 60.0 * minutes + seconds
  }

  /** timedelta normalises its fields without changing its total: 24 hours
      count as a day, 60 minutes as an hour and 60 seconds as a minute, and
      the offset grows with each field. */
  lemma DateCarries(days: real, hours: real, minutes: real, seconds: real)
    ensures DateToSec(days, hours + 24.0, minutes, seconds) == DateToSec(days + 1.0, hours, minutes, seconds)
    ensures DateToSec(days, hours, minutes + 60.0, seconds) == DateToSec(days, hours + 1.0, minutes, seconds)
    ensures DateToSec(days, hours, minutes, seconds + 60.0) == DateToSec(days, hours, minutes + 1.0, seconds)
    ensures days >= 0.0 && hours >= 0.0 && minutes >= 0.0 ==> DateToSec(days, hours, minutes, seconds) >= seconds
  {
  }
}
