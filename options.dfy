/** The option objects of the solvers (paso/util/report_and_option_class.py):
    a list of recognised keys shared by every options class, an attribute
    dictionary per instance, and a per-instance record of every key whose
    value changed after it was first set (the first value as `default`, the
    values in between as `former`). */
module Options {
  import opened Wrappers

  /** The values an option takes: None, a float, a flag, a text, or a list
      of time points. */
  datatype Value = Nothing | Num(x: real) | Flag(b: bool) | Text(s: string) | Reals(xs: seq<real>)

  datatype Override = Override(default: Value, former: seq<Value>)

  /** The instance dictionary and the override record of one object. */
  datatype State = State(attrs: map<string, Value>, overrides: map<string, Override>)

  /** Lines 70-76 on values: any attribute is set; for a recognised key that
      already holds a different value the change is recorded. */
  function Assign(keys: seq<string>, st: State, k: string, v: Value): (r: State)
    ensures r.attrs == st.attrs[k := v]
    ensures r.overrides.Keys == st.overrides.Keys
                                + (if k in keys && k in st.attrs && st.attrs[k] != v then {k} else {})
  {
    if k in keys && k in st.attrs && st.attrs[k] != v then
      if k in st.overrides then
        var o := st.overrides[k];
        State(st.attrs[k := v], st.overrides[k := Override(o.default, o.former + [st.attrs[k]])])
      else
        State(st.attrs[k := v], st.overrides[k := Override(st.attrs[k], [])])
    else
      State(st.attrs[k := v], st.overrides)
  }

  /** Every value a key has held, oldest first, as far as the record tells. */
  function Trail(st: State, k: string): (t: seq<Value>)
    requires k in st.attrs
    ensures |t| >= 1 && t[|t| - 1] == st.attrs[k]
  {
    if k in st.overrides then
      [st.overrides[k].default] + st.overrides[k].former + [st.attrs[k]]
    else [st.attrs[k]]
  }

  predicate NoStutter(t: seq<Value>)
  {
    forall i :: 0 < i < |t| ==> t[i - 1] != t[i]
  }

  /** The record is about attributes that exist, of recognised keys, and
      holds no repeated value. */
  predicate Consistent(keys: seq<string>, st: State)
  {
    (forall k :: k in st.overrides ==> k in st.attrs && k in keys)
    && (forall k :: k in st.attrs ==> NoStutter(Trail(st, k)))
  }

  /** Setting a recognised key appends the new value to its trail when it
      differs from the current one and leaves the trail alone otherwise; no
      other trail changes. */
  lemma AssignTrail(keys: seq<string>, st: State, k: string, v: Value)
    requires Consistent(keys, st) && k in keys
    ensures Consistent(keys, Assign(keys, st, k, v))
    ensures k !in st.attrs ==> Trail(Assign(keys, st, k, v), k) == [v]
    ensures k in st.attrs && st.attrs[k] == v ==> Trail(Assign(keys, st, k, v), k) == Trail(st, k)
    ensures k in st.attrs && st.attrs[k] != v ==> Trail(Assign(keys, st, k, v), k) == Trail(st, k) + [v]
    ensures forall j :: j != k && j in st.attrs ==> Trail(Assign(keys, st, k, v), j) == Trail(st, j)
  {
    var r := Assign(keys, st, k, v);
    AssignOthers(keys, st, k, v);
    AssignOwn(keys, st, k, v);
    forall j | j in r.attrs
      ensures NoStutter(Trail(r, j))
    {
      if j != k {
        assert Trail(r, j) == Trail(st, j);
      }
    }
  }

  lemma AssignOthers(keys: seq<string>, st: State, k: string, v: Value)
    ensures forall j :: j != k && j in st.attrs ==> Trail(Assign(keys, st, k, v), j) == Trail(st, j)
  {
    var r := Assign(keys, st, k, v);
    forall j | j != k && j in st.attrs
      ensures Trail(r, j) == Trail(st, j)
    {
      assert r.attrs[j] == st.attrs[j];
      assert j in r.overrides <==> j in st.overrides;
      if j in r.overrides {
        assert r.overrides[j] == st.overrides[j];
      }
    }
  }

  lemma AssignOwn(keys: seq<string>, st: State, k: string, v: Value)
    requires k in keys && (k in st.attrs ==> NoStutter(Trail(st, k)))
    requires forall j :: j in st.overrides ==> j in st.attrs
    ensures NoStutter(Trail(Assign(keys, st, k, v), k))
    ensures k !in st.attrs ==> Trail(Assign(keys, st, k, v), k) == [v]
    ensures k in st.attrs && st.attrs[k] == v ==> Trail(Assign(keys, st, k, v), k) == Trail(st, k)
    ensures k in st.attrs && st.attrs[k] != v ==> Trail(Assign(keys, st, k, v), k) == Trail(st, k) + [v]
  {
    var r := Assign(keys, st, k, v);
    if k !in st.attrs {
      assert k !in r.overrides;
      assert Trail(r, k) == [v];
    } else if st.attrs[k] == v {
      assert r == st;
    } else if k in st.overrides {
      var o := st.overrides[k];
      assert r.overrides[k] == Override(o.default, o.former + [st.attrs[k]]);
      assert Trail(r, k) == [o.default] + o.former + [st.attrs[k]] + [v];
      AppendKeepsNoStutter(Trail(st, k), v);
    } else {
      assert r.overrides[k] == Override(st.attrs[k], []);
      assert Trail(r, k) == [st.attrs[k]] + [v];
      AppendKeepsNoStutter(Trail(st, k), v);
    }
  }

  lemma AppendKeepsNoStutter(t: seq<Value>, v: Value)
    requires NoStutter(t) && |t| >= 1 && t[|t| - 1] != v
    ensures NoStutter(t + [v])
  {
  }

  /** Setting an attribute that is not a recognised key records nothing. */
  lemma AssignUnknown(keys: seq<string>, st: State, k: string, v: Value)
    requires Consistent(keys, st) && k !in keys
    ensures Assign(keys, st, k, v).overrides == st.overrides
    ensures k !in st.attrs ==> Consistent(keys, Assign(keys, st, k, v))
  {
    var r := Assign(keys, st, k, v);
    if k !in st.attrs {
      forall j | j in r.attrs
        ensures NoStutter(Trail(r, j))
      {
        if j != k {
          assert Trail(r, j) == Trail(st, j);
        }
      }
    }
  }

  /** Lines 47-49 on values: the keyword arguments in order, each set when
      it is a recognised key; the first one that is not stops with an
      error, after the ones before it have been set. */
  function ApplyAll(keys: seq<string>, st: State, kw: seq<(string, Value)>): (r: (State, Option<string>))
    decreases |kw|
  {
    if kw == [] then (st, None)
    else if kw[0].0 in keys then ApplyAll(keys, Assign(keys, st, kw[0].0, kw[0].1), kw[1..])
    else (st, Some(kw[0].0))
  }

  /** The keyword arguments fail exactly when one of them is not a
      recognised key, and then the first such is reported; the record stays
      consistent either way. */
  lemma {:induction false} ApplyAllResult(keys: seq<string>, st: State, kw: seq<(string, Value)>)
    requires Consistent(keys, st)
    ensures Consistent(keys, ApplyAll(keys, st, kw).0)
    ensures ApplyAll(keys, st, kw).1.None? <==> forall i :: 0 <= i < |kw| ==> kw[i].0 in keys
    ensures ApplyAll(keys, st, kw).1.Some? ==>
              exists i :: 0 <= i < |kw| && kw[i].0 == ApplyAll(keys, st, kw).1.value && kw[i].0 !in keys
                          && forall j :: 0 <= j < i ==> kw[j].0 in keys
    decreases |kw|
  {
    if kw != [] && kw[0].0 in keys {
      AssignTrail(keys, st, kw[0].0, kw[0].1);
      ApplyAllResult(keys, Assign(keys, st, kw[0].0, kw[0].1), kw[1..]);
      assert forall i :: 1 <= i < |kw| ==> kw[i] == kw[1..][i - 1];
      var r := ApplyAll(keys, st, kw);
      if r.1.Some? {
        var i :| 0 <= i < |kw[1..]| && kw[1..][i].0 == r.1.value && kw[1..][i].0 !in keys
                 && forall j :: 0 <= j < i ==> kw[1..][j].0 in keys;
        assert kw[i + 1].0 == r.1.value && forall j :: 0 <= j < i + 1 ==> kw[j].0 in keys;
      }
    } else if kw != [] {
      assert kw[0].0 !in keys;
    }
  }

  /** Distinct keys: after a successful application every keyword's key
      holds the keyword's value, and the other attributes are untouched. */
  lemma {:induction false} ApplyAllSets(keys: seq<string>, st: State, kw: seq<(string, Value)>)
    requires forall i, j :: 0 <= i < j < |kw| ==> kw[i].0 != kw[j].0
    requires ApplyAll(keys, st, kw).1.None?
    ensures forall i :: 0 <= i < |kw| ==>
              kw[i].0 in ApplyAll(keys, st, kw).0.attrs && ApplyAll(keys, st, kw).0.attrs[kw[i].0] == kw[i].1
    ensures forall k :: k in st.attrs && (forall i :: 0 <= i < |kw| ==> kw[i].0 != k) ==>
              k in ApplyAll(keys, st, kw).0.attrs && ApplyAll(keys, st, kw).0.attrs[k] == st.attrs[k]
    decreases |kw|
  {
    if kw != [] {
      var st' := Assign(keys, st, kw[0].0, kw[0].1);
      ApplyAllSets(keys, st', kw[1..]);
      var r := ApplyAll(keys, st, kw).0;
      assert r == ApplyAll(keys, st', kw[1..]).0;
      forall i | 0 <= i < |kw|
        ensures kw[i].0 in r.attrs && r.attrs[kw[i].0] == kw[i].1
      {
        if i == 0 {
          assert forall j :: 0 <= j < |kw[1..]| ==> kw[1..][j].0 != kw[0].0 by {
            forall j | 0 <= j < |kw[1..]| ensures kw[1..][j].0 != kw[0].0 {
              assert kw[1..][j] == kw[j + 1];
            }
          }
        } else {
          assert kw[i] == kw[1..][i - 1];
        }
      }
      forall k | k in st.attrs && (forall i :: 0 <= i < |kw| ==> kw[i].0 != k)
        ensures k in r.attrs && r.attrs[k] == st.attrs[k]
      {
        assert kw[0].0 != k;
        assert forall i :: 0 <= i < |kw[1..]| ==> kw[1..][i].0 != k by {
          forall i | 0 <= i < |kw[1..]| ensures kw[1..][i].0 != k {
            assert kw[1..][i] == kw[i + 1];
          }
        }
      }
    }
  }

  /** Lines 61-64 on values: every additional key not yet recognised is
      appended to the shared list; one that is already an attribute of the
      instance stops the registration with that key, after the keys before
      it have been appended. */
  function RegisterKeys(keys: seq<string>, add: seq<string>, attrs: map<string, Value>): (r: (seq<string>, Option<string>))
    decreases |add|
  {
    if add == [] then (keys, None)
    else if add[0] in keys then RegisterKeys(keys, add[1..], attrs)
    else if add[0] in attrs then (keys, Some(add[0]))
    else RegisterKeys(keys + [add[0]], add[1..], attrs)
  }

  predicate NoDup(s: seq<string>)
  {
    forall i, j :: 0 <= i < j < |s| ==> s[i] != s[j]
  }

  /** Registration only appends, keeps the list free of duplicates, and
      either recognises every additional key or names one that was already
      an attribute and is still not recognised. */
  lemma {:induction false} RegisterKeysResult(keys: seq<string>, add: seq<string>, attrs: map<string, Value>)
    requires NoDup(keys)
    ensures var r := RegisterKeys(keys, add, attrs);
      |keys| <= |r.0| && r.0[..|keys|] == keys && NoDup(r.0)
      && (forall k :: k in r.0 ==> k in keys || k in add)
      && (r.1.None? ==> forall k :: k in add ==> k in r.0)
      && (r.1.Some? ==> r.1.value in add && r.1.value in attrs && r.1.value !in r.0)
    ensures RegisterKeys(keys, add, attrs).1.None? <==> forall k :: k in add ==> k in keys || k !in attrs
    decreases |add|
  {
    if add != [] {
      var rest := add[1..];
      assert forall k :: k in add <==> k == add[0] || k in rest;
      if add[0] in keys {
        RegisterKeysResult(keys, rest, attrs);
      } else if add[0] !in attrs {
        var keys' := keys + [add[0]];
        assert NoDup(keys');
        RegisterKeysResult(keys', rest, attrs);
        var r := RegisterKeys(keys', rest, attrs);
        assert r.0[..|keys|] == r.0[..|keys'|][..|keys|];
        assert r.0[|keys|] == keys'[|keys|] == add[0];
        assert RegisterKeys(keys', rest, attrs).1.None? <==> forall k :: k in rest ==> k in keys' || k !in attrs;
      }
    }
  }

  /** The first of the keys, in order, that has no attribute. */
  function FirstMissing(ks: seq<string>, attrs: map<string, Value>): (r: Option<string>)
    ensures r.None? <==> forall k :: k in ks ==> k in attrs
    ensures r.Some? ==> r.value in ks && r.value !in attrs
  {
    if ks == [] then None
    else if ks[0] !in attrs then Some(ks[0])
    else
      assert forall k :: k in ks <==> k == ks[0] || k in ks[1..];
      FirstMissing(ks[1..], attrs)
  }

  /** The list of recognised keys. It is a class attribute of the base class,
      so one list is shared by the base class and all classes derived from
      it. */
  class KeyRegistry {
    var keys: seq<string>

    constructor ()
      ensures keys == ["name"]
    {
      keys := ["name"];
    }
  }

  /** An options object (lines 25-105). */
  class OptionsBase {
    const registry: KeyRegistry
    var attrs: map<string, Value>
    var overrides: map<string, Override>

    function Current(): State
      reads this
    {
      State(attrs, overrides)
    }

    ghost predicate Valid()
      reads this, registry
    {
      NoDup(registry.keys) && Consistent(registry.keys, Current())
    }

    /** The object as the base-class initialiser finds it: preset holds the
        attributes a derived class set before calling it. */
    constructor (registry: KeyRegistry, preset: map<string, Value>)
      ensures this.registry == registry && attrs == preset && overrides == map[]
    {
      this.registry := registry;
      attrs := preset;
      overrides := map[];
    }

    /** Lines 70-76: set an attribute, recording the change of a recognised
        key. */
    method SetAttr(k: string, v: Value)
      modifies this
      ensures Current() == Assign(registry.keys, old(Current()), k, v)
    {
      if k in registry.keys && k in attrs && attrs[k] != v {
        if k in overrides {
          overrides := overrides[k := Override(overrides[k].default, overrides[k].former + [attrs[k]])];
        } else {
          overrides := overrides[k := Override(attrs[k], [])];
        }
      }
      attrs := attrs[k := v];
    }

    /** Lines 78-80: item assignment on a key that is not recognised raises. */
    method SetItem(k: string, v: Value) returns (err: Option<string>)
      modifies this
      ensures err.Some? <==> k !in registry.keys
      ensures err.None? ==> Current() == Assign(registry.keys, old(Current()), k, v)
      ensures err.Some? ==> Current() == old(Current())
    {
      if k in registry.keys {
        SetAttr(k, v);
        err := None;
      } else {
        err := Some("unknown field name: " + k);
      }
    }

    /** Lines 82-84: item access on a key that is not recognised raises, and
        so does a recognised key the object has no attribute for. */
    function GetItem(k: string): (r: Result<Value, string>)
      reads this, registry
      ensures r.Ok? <==> k in registry.keys && k in attrs
      ensures r.Ok? ==> r.value == attrs[k]
    {
      if k !in registry.keys then Err("unknown field name: " + k)
      else if k !in attrs then Err(k)
      else Ok(attrs[k])
    }

    /** Line 90: the object as a dictionary, key by key through item access;
        the first recognised key without an attribute raises. */
    function AsDict(): (r: Result<map<string, Value>, string>)
      reads this, registry
      ensures r.Ok? <==> forall k :: k in registry.keys ==> k in attrs
      ensures r.Ok? ==> r.value.Keys == set k | k in registry.keys
      ensures r.Ok? ==> forall k :: k in r.value ==> r.value[k] == attrs[k]
      ensures r.Err? ==> r.error in registry.keys && r.error !in attrs
    {
      match FirstMissing(registry.keys, attrs)
      case None => Ok(map k | k in registry.keys :: attrs[k])
      case Some(k) => Err(k)
    }

    /** Lines 61-64: register the additional keys in the shared list. */
    method Register(add: seq<string>) returns (err: Option<string>)
      modifies registry
      ensures (registry.keys, err) == RegisterKeys(old(registry.keys), add, attrs)
    {
      var i := 0;
      while i < |add|
        invariant 0 <= i <= |add|
        invariant RegisterKeys(old(registry.keys), add, attrs) == RegisterKeys(registry.keys, add[i..], attrs)
      {
        assert add[i..][1..] == add[i + 1..];
        if add[i] !in registry.keys {
          if add[i] in attrs {
            return Some(add[i]);
          }
          registry.keys := registry.keys + [add[i]];
        }
        i := i + 1;
      }
      err := None;
    }

    /** Lines 53-68: register the additional keys, start an empty override
        record and set the name. */
    method Init(name: string, add: seq<string>) returns (err: Option<string>)
      requires NoDup(registry.keys) && "name" in registry.keys
      modifies this, registry
      ensures registry.keys == RegisterKeys(old(registry.keys), add, old(attrs)).0
      ensures err == RegisterKeys(old(registry.keys), add, old(attrs)).1
      ensures err.Some? ==> attrs == old(attrs) && overrides == old(overrides)
      ensures err.None? ==> Current() == Assign(registry.keys, State(old(attrs), map[]), "name", Text(name))
      ensures err.None? && Consistent(registry.keys, State(old(attrs), map[])) ==> Valid()
    {
      RegisterKeysResult(registry.keys, add, attrs);
      err := Register(add);
      if err.None? {
        overrides := map[];
        SetAttr("name", Text(name));
        if Consistent(registry.keys, State(old(attrs), map[])) {
          AssignTrail(registry.keys, State(old(attrs), map[]), "name", Text(name));
        }
      }
    }

    /** Lines 47-49: the keyword arguments of the constructor, in order. */
    method ApplyKwargs(kw: seq<(string, Value)>) returns (err: Option<string>)
      modifies this
      ensures (Current(), err) == ApplyAll(registry.keys, old(Current()), kw)
    {
      var i := 0;
      while i < |kw|
        invariant 0 <= i <= |kw|
        invariant ApplyAll(registry.keys, old(Current()), kw) == ApplyAll(registry.keys, Current(), kw[i..])
      {
        assert kw[i..][1..] == kw[i + 1..];
        if kw[i].0 !in registry.keys {
          return Some(kw[i].0);
        }
        SetAttr(kw[i].0, kw[i].1);
        i := i + 1;
      }
      err := None;
    }
  }

  /** Lines 112-116: the keys integration options add. */
  function IntegrationKeys(): seq<string>
  {
    ["h_min", "h_max", "h_grid", "grid_offset", "custom_time_points",
     "atol_dom", "rtol_dom", "atol_range", "rtol_range", "one_step"]
  }

  /** Lines 125-138: the defaults, in the order they are set. */
  function IntegrationDefaults(): (d: seq<(string, Value)>)
    ensures |d| == |IntegrationKeys()| && forall i :: 0 <= i < |d| ==> d[i].0 == IntegrationKeys()[i]
  {
    [("h_min", Num(0.0)), ("h_max", Nothing), ("h_grid", Nothing), ("grid_offset", Num(0.0)),
     ("custom_time_points", Reals([])),
     ("atol_dom", Num(1.0e-8)), ("rtol_dom", Num(1.0e-6)),
     ("atol_range", Num(1.0e-8)), ("rtol_range", Num(1.0e-6)),
     ("one_step", Flag(false))]
  }

  /** Lines 42-49 with 111-138: a new integration options object. The keys
      of integration options (and the extra keys of a derived class) are
      registered, the defaults set, and then the keyword arguments applied
      on top of them, each change of a default recorded. */
  method NewIntegrationOptions(registry: KeyRegistry, name: string, extra: seq<string>,
                               kw: seq<(string, Value)>) returns (o: OptionsBase, err: Option<string>)
    requires NoDup(registry.keys) && "name" in registry.keys
    modifies registry
    ensures fresh(o) && o.registry == registry
    ensures err.None? ==> o.Valid()
    ensures err.None? ==> forall i :: 0 <= i < |IntegrationKeys()| ==> IntegrationKeys()[i] in registry.keys
    ensures err.None? ==>
              (o.Current(), None) == ApplyAll(registry.keys, ApplyAll(registry.keys, State(map["name" := Text(name)], map[]),
                                                                     IntegrationDefaults()).0, kw)
    ensures err.Some? <==> exists i :: 0 <= i < |kw| && kw[i].0 !in registry.keys
    ensures err.Some? ==> exists i :: 0 <= i < |kw| && kw[i].0 == err.value && kw[i].0 !in registry.keys
                                      && forall j :: 0 <= j < i ==> kw[j].0 in registry.keys
  {
    o := new OptionsBase(registry, map[]);
    RegisterKeysResult(registry.keys, IntegrationKeys() + extra, map[]);
    err := o.Init(name, IntegrationKeys() + extra);
    assert err.None?;
    var st0 := State(map[], map[]);
    assert Consistent(registry.keys, st0);
    assert o.Current() == State(map["name" := Text(name)], map[]);
    IntegrationKeysRegistered(old(registry.keys), extra);
    IntegrationDefaultsApply(registry.keys, o.Current());
    err := o.ApplyKwargs(IntegrationDefaults());
    ApplyAllResult(registry.keys, o.Current(), kw);
    err := o.ApplyKwargs(kw);
  }

  lemma IntegrationKeysRegistered(keys: seq<string>, extra: seq<string>)
    requires NoDup(keys)
    requires RegisterKeys(keys, IntegrationKeys() + extra, map[]).1.None?
    ensures forall i :: 0 <= i < |IntegrationKeys()| ==>
              IntegrationKeys()[i] in RegisterKeys(keys, IntegrationKeys() + extra, map[]).0
  {
    RegisterKeysResult(keys, IntegrationKeys() + extra, map[]);
    forall i | 0 <= i < |IntegrationKeys()|
      ensures IntegrationKeys()[i] in IntegrationKeys() + extra
    {
      assert (IntegrationKeys() + extra)[i] == IntegrationKeys()[i];
    }
  }

  lemma IntegrationDefaultsApply(keys: seq<string>, st: State)
    requires Consistent(keys, st)
    requires forall i :: 0 <= i < |IntegrationKeys()| ==> IntegrationKeys()[i] in keys
    ensures ApplyAll(keys, st, IntegrationDefaults()).1.None?
    ensures Consistent(keys, ApplyAll(keys, st, IntegrationDefaults()).0)
  {
    ApplyAllResult(keys, st, IntegrationDefaults());
  }

  /** A keyword argument that changes a default leaves the default on
      record: the trail of that key is the default followed by the new
      value. */
  lemma OverrideKeepsDefault(keys: seq<string>, st: State, d: seq<(string, Value)>, i: nat, v: Value)
    requires Consistent(keys, st)
    requires forall j, l :: 0 <= j < l < |d| ==> d[j].0 != d[l].0
    requires forall j :: 0 <= j < |d| ==> d[j].0 in keys && d[j].0 !in st.attrs
    requires i < |d| && v != d[i].1
    ensures var st1 := ApplyAll(keys, st, d).0;
            d[i].0 in ApplyAll(keys, st1, [(d[i].0, v)]).0.attrs
            && Trail(ApplyAll(keys, st1, [(d[i].0, v)]).0, d[i].0) == [d[i].1, v]
  {
    var st1 := ApplyAll(keys, st, d).0;
    var k := d[i].0;
    DefaultSet(keys, st, d, i);
    AssignTrail(keys, st1, k, v);
    assert ApplyAll(keys, st1, [(k, v)]).0 == Assign(keys, st1, k, v);
  }

  /** After the defaults, the key of the i-th default holds it and has
      nothing on record. */
  lemma DefaultSet(keys: seq<string>, st: State, d: seq<(string, Value)>, i: nat)
    requires Consistent(keys, st)
    requires forall j, l :: 0 <= j < l < |d| ==> d[j].0 != d[l].0
    requires forall j :: 0 <= j < |d| ==> d[j].0 in keys && d[j].0 !in st.attrs
    requires i < |d|
    ensures var st1 := ApplyAll(keys, st, d).0;
            Consistent(keys, st1) && d[i].0 in keys && d[i].0 in st1.attrs
            && st1.attrs[d[i].0] == d[i].1 && d[i].0 !in st1.overrides
  {
    ApplyAllResult(keys, st, d);
    ApplyAllSets(keys, st, d);
    DefaultsRecordNothing(keys, st, d);
  }

  /** The same for an integration options object: after
      h_min = v with v != 0, the record of h_min is [0, v]. */
  lemma IntegrationOverride(keys: seq<string>, name: string, i: nat, v: Value)
    requires forall j :: 0 <= j < |IntegrationKeys()| ==> IntegrationKeys()[j] in keys
    requires i < |IntegrationDefaults()| && v != IntegrationDefaults()[i].1
    ensures var d := IntegrationDefaults();
            var st1 := ApplyAll(keys, State(map["name" := Text(name)], map[]), d).0;
            d[i].0 in ApplyAll(keys, st1, [(d[i].0, v)]).0.attrs
            && Trail(ApplyAll(keys, st1, [(d[i].0, v)]).0, d[i].0) == [d[i].1, v]
  {
    var d := IntegrationDefaults();
    var st := State(map["name" := Text(name)], map[]);
    assert Trail(st, "name") == [Text(name)];
    assert Consistent(keys, st);
    assert forall j, l :: 0 <= j < l < |d| ==> d[j].0 != d[l].0;
    OverrideKeepsDefault(keys, st, d, i, v);
  }

  /** Setting keys that the object does not have yet records nothing. */
  lemma {:induction false} DefaultsRecordNothing(keys: seq<string>, st: State, d: seq<(string, Value)>)
    requires forall i, j :: 0 <= i < j < |d| ==> d[i].0 != d[j].0
    requires forall i :: 0 <= i < |d| ==> d[i].0 !in st.attrs
    ensures ApplyAll(keys, st, d).0.overrides == st.overrides
    decreases |d|
  {
    if d != [] && d[0].0 in keys {
      var st' := Assign(keys, st, d[0].0, d[0].1);
      forall i | 0 <= i < |d[1..]| ensures d[1..][i].0 !in st'.attrs {
        assert d[1..][i] == d[i + 1];
      }
      forall i, j | 0 <= i < j < |d[1..]| ensures d[1..][i].0 != d[1..][j].0 {
        assert d[1..][i] == d[i + 1] && d[1..][j] == d[j + 1];
      }
      DefaultsRecordNothing(keys, st', d[1..]);
    }
  }
}
