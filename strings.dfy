/** The few operations on Python strings the simulator's readers rely on:
    lower-casing, substring search, split/join on a separator, and the
    lexicographic order of `sorted` on strings. */
module Strings {
  import opened Wrappers
  import Sorting

  function LowerChar(c: char): char
  {
    if 'A' <= c <= 'Z' then (c as int + 32) as char else c
  }

  /** str.lower on ASCII text. */
  function Lower(s: string): (r: string)
    ensures |r| == |s| && forall i :: 0 <= i < |s| ==> r[i] == LowerChar(s[i])
  {
    if s == [] then [] else [LowerChar(s[0])] + Lower(s[1..])
  }

  predicate OccursAt(s: string, sep: string, i: nat)
  {
    i + |sep| <= |s| && s[i..i + |sep|] == sep
  }

  /** The first index at or after k where sep occurs in s. */
  function FindFrom(s: string, sep: string, k: nat): (r: Option<nat>)
    ensures r.Some? ==> k <= r.value && OccursAt(s, sep, r.value)
                        && forall j :: k <= j < r.value ==> !OccursAt(s, sep, j)
    ensures r.None? ==> forall j :: k <= j ==> !OccursAt(s, sep, j)
    decreases |s| - k
  {
    if k + |sep| > |s| then None
    else if s[k..k + |sep|] == sep then Some(k)
    else FindFrom(s, sep, k + 1)
  }

  function Find(s: string, sep: string): (r: Option<nat>)
    ensures r.Some? ==> OccursAt(s, sep, r.value) && forall j :: 0 <= j < r.value ==> !OccursAt(s, sep, j)
    ensures r.None? ==> forall j :: 0 <= j ==> !OccursAt(s, sep, j)
  {
    FindFrom(s, sep, 0)
  }

  /** Python's `sep in s`. */
  predicate Contains(s: string, sep: string)
  {
    Find(s, sep).Some?
  }

  /** str.split(sep) for a non-empty separator: the pieces between the
      occurrences of sep, found from the left without overlap. */
  function Split(s: string, sep: string): (parts: seq<string>)
    requires |sep| > 0
    ensures |parts| >= 1
    decreases |s|
  {
    match Find(s, sep)
    case None => [s]
    case Some(i) => [s[..i]] + Split(s[i + |sep|..], sep)
  }

  /** sep.join(parts). */
  function Join(parts: seq<string>, sep: string): (r: string)
  {
    if |parts| == 0 then []
    else if |parts| == 1 then parts[0]
    else parts[0] + sep + Join(parts[1..], sep)
  }

  /** repl.join(s.split(target)): every occurrence of target replaced by repl. */
  function ReplaceAll(s: string, target: string, repl: string): string
    requires |target| > 0
  {
    Join(Split(s, target), repl)
  }

  lemma JoinCons(p: string, rest: seq<string>, sep: string)
    requires |rest| >= 1
    ensures Join([p] + rest, sep) == p + sep + Join(rest, sep)
  {
    assert ([p] + rest)[1..] == rest;
  }

  lemma SliceJoin(s: string, i: nat)
    requires i <= |s|
    ensures s[..i] + s[i..] == s
  {
  }

  /** Joining the pieces of a split gives the string back. */
  lemma {:induction false} SplitJoin(s: string, sep: string)
    requires |sep| > 0
    ensures Join(Split(s, sep), sep) == s
    decreases |s|
  {
    var f := Find(s, sep);
    if f.Some? {
      var i := f.value;
      var rest := s[i + |sep|..];
      var parts := Split(rest, sep);
      assert Split(s, sep) == [s[..i]] + parts;
      SplitJoin(rest, sep);
      JoinCons(s[..i], parts, sep);
      assert s[i..i + |sep|] == sep;
      assert s[i..] == sep + rest;
      calc {
        Join(Split(s, sep), sep);
        Join([s[..i]] + parts, sep);
        s[..i] + sep + Join(parts, sep);
        s[..i] + sep + rest;
        s[..i] + (sep + rest);
        { SliceJoin(s, i); }
        s;
      }
    }
  }

  /** No piece of a split contains the separator. */
  lemma {:induction false} SplitParts(s: string, sep: string)
    requires |sep| > 0
    ensures forall k :: 0 <= k < |Split(s, sep)| ==> !Contains(Split(s, sep)[k], sep)
    decreases |s|
  {
    match Find(s, sep)
    case None =>
      NoOccurrenceNoFind(s, sep);
    case Some(i) =>
      var rest := s[i + |sep|..];
      SplitParts(rest, sep);
      var head := s[..i];
      forall j | 0 <= j && j + |sep| <= |head|
        ensures !OccursAt(head, sep, j)
      {
        assert !OccursAt(s, sep, j);
        assert head[j..j + |sep|] == s[j..j + |sep|];
      }
      NoOccurrenceNoFind(head, sep);
      var parts := Split(s, sep);
      assert parts[0] == head;
      forall k | 1 <= k < |parts| ensures !Contains(parts[k], sep) {
        assert parts[k] == Split(rest, sep)[k - 1];
      }
  }

  lemma NoOccurrenceNoFind(s: string, sep: string)
    requires forall j :: 0 <= j ==> !OccursAt(s, sep, j)
    ensures !Contains(s, sep)
  {
  }

  /** A single character occurs in s exactly where s has that character. */
  lemma CharOccurs(s: string, c: char)
    ensures forall j :: 0 <= j ==> (OccursAt(s, [c], j) <==> j < |s| && s[j] == c)
  {
    forall j | 0 <= j
      ensures OccursAt(s, [c], j) <==> j < |s| && s[j] == c
    {
      if j < |s| {
        assert s[j..j + 1] == [s[j]];
      }
    }
  }

  /** For a one-character separator, splitting a join of pieces that do not
      contain it gives the pieces back. */
  lemma {:induction false} JoinSplit(parts: seq<string>, c: char)
    requires |parts| >= 1 && forall k :: 0 <= k < |parts| ==> c !in parts[k]
    ensures Split(Join(parts, [c]), [c]) == parts
    decreases |parts|
  {
    var s := Join(parts, [c]);
    CharOccurs(s, c);
    if |parts| == 1 {
      assert Find(s, [c]).None?;
    } else {
      var p := parts[0];
      var tail := Join(parts[1..], [c]);
      JoinCons(p, parts[1..], [c]);
      assert parts == [p] + parts[1..];
      assert s == p + [c] + tail;
      assert s[|p|] == c;
      forall j | 0 <= j < |p| ensures s[j] != c {
        assert s[j] == p[j];
      }
      assert Find(s, [c]) == Some(|p|);
      assert s[..|p|] == p;
      assert s[|p| + 1..] == tail;
      JoinSplit(parts[1..], c);
      assert Split(s, [c]) == [p] + Split(tail, [c]);
    }
  }

  /** An occurrence makes `in` true. */
  lemma OccursContains(s: string, q: string, j: nat)
    requires OccursAt(s, q, j)
    ensures Contains(s, q)
  {
  }

  /** A one-character pattern is contained exactly when the character is. */
  lemma CharContains(s: string, c: char)
    ensures Contains(s, [c]) <==> c in s
  {
    CharOccurs(s, c);
    if c in s {
      var j :| 0 <= j < |s| && s[j] == c;
      OccursContains(s, [c], j);
    }
  }

  /** A slice of a string that avoids q avoids q. */
  lemma SliceAvoids(s: string, q: string, a: nat, b: nat)
    requires a <= b <= |s| && !Contains(s, q)
    ensures !Contains(s[a..b], q)
  {
    var t := s[a..b];
    forall j | 0 <= j && j + |q| <= |t| ensures !OccursAt(t, q, j) {
      assert !OccursAt(s, q, a + j);
      SliceOfSlice(s, a, b, j, j + |q|);
    }
    NoOccurrenceNoFind(t, q);
  }

  lemma SliceOfSlice(s: string, a: nat, b: nat, i: nat, j: nat)
    requires a <= b <= |s| && i <= j <= b - a
    ensures s[a..b][i..j] == s[a + i..a + j]
  {
    assert forall k :: 0 <= k < j - i ==> s[a..b][i..j][k] == s[a + i..a + j][k];
  }

  /** The pieces of a split avoid whatever the whole string avoids. */
  lemma {:induction false} SplitPartsAvoid(s: string, sep: string, q: string)
    requires |sep| > 0 && !Contains(s, q)
    ensures forall k :: 0 <= k < |Split(s, sep)| ==> !Contains(Split(s, sep)[k], q)
    decreases |s|
  {
    var f := Find(s, sep);
    if f.Some? {
      var i := f.value;
      var rest := s[i + |sep|..];
      SliceAvoids(s, q, 0, i);
      SliceAvoids(s, q, i + |sep|, |s|);
      assert s[i + |sep|..|s|] == rest;
      assert s[0..i] == s[..i];
      SplitPartsAvoid(rest, sep, q);
      var parts := Split(s, sep);
      assert parts == [s[..i]] + Split(rest, sep);
      forall k | 1 <= k < |parts| ensures !Contains(parts[k], q) {
        assert parts[k] == Split(rest, sep)[k - 1];
      }
    }
  }

  /** Joining pieces that avoid q with a separator none of whose characters
      occurs in q gives a string that avoids q. */
  lemma {:induction false} JoinAvoids(parts: seq<string>, sep: string, q: string)
    requires |q| > 0 && |sep| > 0
    requires forall k :: 0 <= k < |sep| ==> sep[k] !in q
    requires forall k :: 0 <= k < |parts| ==> !Contains(parts[k], q)
    ensures !Contains(Join(parts, sep), q)
    decreases |parts|
  {
    if |parts| > 1 {
      var p := parts[0];
      var rest := parts[1..];
      var tail := Join(rest, sep);
      JoinAvoids(rest, sep, q);
      JoinCons(p, rest, sep);
      assert parts == [p] + rest;
      var s := p + sep + tail;
      forall j | 0 <= j && j + |q| <= |s| ensures !OccursAt(s, q, j) {
        if j + |q| <= |p| {
          assert !OccursAt(p, q, j);
          assert p[j..j + |q|] == s[j..j + |q|];
        } else if j >= |p| + |sep| {
          var j' := j - |p| - |sep|;
          assert !OccursAt(tail, q, j');
          assert tail[j'..j' + |q|] == s[j..j + |q|];
        } else {
          var m := if j >= |p| then j else |p|;
          assert s[m] == sep[m - |p|];
          assert s[j..j + |q|][m - j] == s[m];
          assert s[j..j + |q|][m - j] !in q;
          assert s[j..j + |q|] != q;
        }
      }
      NoOccurrenceNoFind(s, q);
    }
  }

  /** A character that is in neither the pieces nor the separator is not in
      their join. */
  lemma {:induction false} JoinAvoidsChar(parts: seq<string>, sep: string, c: char)
    requires c !in sep && forall k :: 0 <= k < |parts| ==> c !in parts[k]
    ensures c !in Join(parts, sep)
    decreases |parts|
  {
    if |parts| > 1 {
      JoinAvoidsChar(parts[1..], sep, c);
    }
  }

  /** a + sep + b splits into [a, b] when the first character of sep occurs
      in neither a nor b. */
  lemma SplitAround(a: string, sep: string, b: string)
    requires |sep| > 0 && sep[0] !in a && sep[0] !in b
    ensures Split(a + sep + b, sep) == [a, b]
  {
    var s := a + sep + b;
    forall j | 0 <= j < |a| ensures !OccursAt(s, sep, j) {
      assert s[j..j + |sep|][0] == a[j];
    }
    assert s[|a|..|a| + |sep|] == sep;
    assert OccursAt(s, sep, |a|);
    var f := Find(s, sep);
    assert f.Some? && f.value <= |a|;
    assert f == Some(|a|);
    assert s[..|a|] == a;
    assert s[|a| + |sep|..] == b;
    forall j | 0 <= j && j + |sep| <= |b| ensures !OccursAt(b, sep, j) {
      assert b[j..j + |sep|][0] == b[j];
    }
    assert Find(b, sep).None?;
  }

  /** With c in neither a nor b, a + [c] + b holds c only once, so never cc. */
  lemma NoDoubleChar(a: string, c: char, b: string)
    requires c !in a && c !in b
    ensures !Contains(a + [c] + b, [c, c])
  {
    var s := a + [c] + b;
    forall j | 0 <= j && j + 2 <= |s| ensures !OccursAt(s, [c, c], j) {
      if j < |a| {
        assert s[j..j + 2][0] == a[j];
      } else if j == |a| {
        assert s[j..j + 2][1] == b[0];
      } else {
        assert s[j..j + 2][0] == b[j - |a| - 1];
      }
    }
    NoOccurrenceNoFind(s, [c, c]);
  }

  /** A two-character pattern needs its first character. */
  lemma PairNeedsChar(s: string, c: char, d: char)
    requires c !in s
    ensures !Contains(s, [c, d])
  {
    forall j | 0 <= j && j + 2 <= |s| ensures !OccursAt(s, [c, d], j) {
      assert s[j..j + 2][0] == s[j];
    }
    NoOccurrenceNoFind(s, [c, d]);
  }

  /** Python's order on strings: by code point, a proper prefix first. */
  function StrLe(a: string, b: string): bool
  {
    if a == [] then true
    else if b == [] then false
    else if a[0] != b[0] then a[0] < b[0]
    else StrLe(a[1..], b[1..])
  }

  lemma {:induction false} StrLeTotal(a: string, b: string)
    ensures StrLe(a, b) || StrLe(b, a)
    decreases |a|
  {
    if a != [] && b != [] && a[0] == b[0] {
      StrLeTotal(a[1..], b[1..]);
    }
  }

  lemma {:induction false} StrLeTransitive(a: string, b: string, c: string)
    requires StrLe(a, b) && StrLe(b, c)
    ensures StrLe(a, c)
    decreases |a|
  {
    if a != [] && b != [] && c != [] && a[0] == b[0] && b[0] == c[0] {
      StrLeTransitive(a[1..], b[1..], c[1..]);
    }
  }

  lemma {:induction false} StrLeAntisymmetric(a: string, b: string)
    requires StrLe(a, b) && StrLe(b, a)
    ensures a == b
    decreases |a|
  {
    if a != [] && b != [] {
      StrLeAntisymmetric(a[1..], b[1..]);
      assert a == [a[0]] + a[1..] && b == [b[0]] + b[1..];
    }
  }

  /** The order of `sorted` on strings is a total order. */
  lemma StrLeTotalPreorder()
    ensures Sorting.TotalPreorder(StrLe)
  {
    forall a, b ensures StrLe(a, b) || StrLe(b, a) {
      StrLeTotal(a, b);
    }
    forall a, b, c | StrLe(a, b) && StrLe(b, c) ensures StrLe(a, c) {
      StrLeTransitive(a, b, c);
    }
  }
}
