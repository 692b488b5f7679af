/** The pieces of the network description reader that decide how a
    description is read: which pair of keys names the two ends of an edge,
    how deprecated model tags are renamed, and which internal-pipe geometry
    an active element gets from the configuration. */
module NetYaml {
  import opened Wrappers
  import opened Strings

  // ---------------------------------------------------------------------
  // The edge-end scheme (read_net_yaml.py:37-70)

  /** One group of edges (pipes, resistors, ...): a list whose entries are
      seen through the keys they carry, or a value that is not a list. */
  datatype Group = EdgeList(entries: seq<set<string>>) | NotAList

  const NotListMsg := "edges within their subgroups (pipe, resistor, ...) have to be lists or tuples!"
  const LeftWithoutRightMsg := "an edge has a property left but not right!"
  const ToWithoutFromMsg := "an edge has a property to but not from!"
  const BothSchemesMsg := "an edge has both left and from!"
  const MixedSchemesMsg := "there are edges having from-to and others have left-right properties!"

  function EntriesOf(g: Group): seq<set<string>>
  {
    match g
    case EdgeList(es) => es
    case NotAList => []
  }

  /** All edge entries of the groups, group after group. */
  function Entries(groups: seq<Group>): seq<set<string>>
    decreases |groups|
  {
    if groups == [] then []
    else Entries(groups[..|groups| - 1]) + EntriesOf(groups[|groups| - 1])
  }

  predicate AllLists(groups: seq<Group>)
  {
    forall g :: 0 <= g < |groups| ==> groups[g].EdgeList?
  }

  predicate Uses(es: seq<set<string>>, key: string)
  {
    exists i :: 0 <= i < |es| && key in es[i]
  }

  /** An entry names its ends either by left and right or by from and to. */
  predicate Paired(e: set<string>)
  {
    ("left" in e <==> "right" in e) && ("to" in e <==> "from" in e) && ("left" in e <==> "to" !in e)
  }

  /** Every entry is paired and all of them use the same scheme. */
  predicate Consistent(es: seq<set<string>>)
  {
    (forall i :: 0 <= i < |es| ==> Paired(es[i])) && !(Uses(es, "left") && Uses(es, "to"))
  }

  lemma EntriesStep(groups: seq<Group>, g: nat)
    requires g < |groups|
    ensures Entries(groups[..g + 1]) == Entries(groups[..g]) + EntriesOf(groups[g])
  {
    assert groups[..g + 1][..g] == groups[..g];
  }

  /** The entries of the first j groups come first among all entries. */
  lemma {:induction false} EntriesPrefix(groups: seq<Group>, j: nat)
    requires j <= |groups|
    ensures |Entries(groups[..j])| <= |Entries(groups)|
    ensures forall i :: 0 <= i < |Entries(groups[..j])| ==> Entries(groups[..j])[i] == Entries(groups)[i]
    decreases |groups| - j
  {
    if j == |groups| {
      assert groups[..j] == groups;
    } else {
      EntriesPrefix(groups, j + 1);
      EntriesStep(groups, j);
    }
  }

  predicate LeftUnpaired(es: seq<set<string>>)
  {
    exists i :: 0 <= i < |es| && ("left" in es[i]) != ("right" in es[i])
  }

  predicate ToUnpaired(es: seq<set<string>>)
  {
    exists i :: 0 <= i < |es| && ("to" in es[i]) != ("from" in es[i])
  }

  /** Some entry names both schemes, or neither. */
  predicate BothOrNeither(es: seq<set<string>>)
  {
    exists i :: 0 <= i < |es| && ("left" in es[i]) == ("to" in es[i])
  }

  predicate IsPrefix(pre: seq<set<string>>, all: seq<set<string>>)
  {
    |pre| <= |all| && forall i :: 0 <= i < |pre| ==> pre[i] == all[i]
  }

  /** What is found in a prefix of the entries is found in all of them. */
  lemma PrefixKeeps(pre: seq<set<string>>, all: seq<set<string>>)
    requires IsPrefix(pre, all)
    ensures Uses(pre, "left") ==> Uses(all, "left")
    ensures Uses(pre, "to") ==> Uses(all, "to")
    ensures LeftUnpaired(pre) ==> LeftUnpaired(all)
    ensures ToUnpaired(pre) ==> ToUnpaired(all)
    ensures BothOrNeither(pre) ==> BothOrNeither(all)
    ensures !Consistent(pre) ==> !Consistent(all)
  {
    if Uses(pre, "left") {
      var i :| 0 <= i < |pre| && "left" in pre[i];
      assert "left" in all[i];
    }
    if Uses(pre, "to") {
      var i :| 0 <= i < |pre| && "to" in pre[i];
      assert "to" in all[i];
    }
    if LeftUnpaired(pre) {
      var i :| 0 <= i < |pre| && ("left" in pre[i]) != ("right" in pre[i]);
      assert all[i] == pre[i];
    }
    if ToUnpaired(pre) {
      var i :| 0 <= i < |pre| && ("to" in pre[i]) != ("from" in pre[i]);
      assert all[i] == pre[i];
    }
    if BothOrNeither(pre) {
      var i :| 0 <= i < |pre| && ("left" in pre[i]) == ("to" in pre[i]);
      assert all[i] == pre[i];
    }
    if !Consistent(pre) && !(Uses(pre, "left") && Uses(pre, "to")) {
      var i :| 0 <= i < |pre| && !Paired(pre[i]);
      assert all[i] == pre[i];
    }
  }

  /** The inner loop of lines 45-65 over one group, continuing the two
      scheme flags of the entries seen so far. */
  method ScanEntries(seen: seq<set<string>>, es: seq<set<string>>, leftRight: bool, fromTo: bool)
    returns (r: Result<(bool, bool), string>)
    requires Consistent(seen)
    requires leftRight == Uses(seen, "left") && fromTo == Uses(seen, "to")
    ensures r.Ok? ==> Consistent(seen + es) && r.value == (Uses(seen + es, "left"), Uses(seen + es, "to"))
    ensures r.Err? ==> !Consistent(seen + es)
    ensures r.Err? ==> r.error in {LeftWithoutRightMsg, ToWithoutFromMsg, BothSchemesMsg, MixedSchemesMsg}
    ensures r == Err(LeftWithoutRightMsg) ==> LeftUnpaired(seen + es)
    ensures r == Err(ToWithoutFromMsg) ==> ToUnpaired(seen + es)
    ensures r == Err(BothSchemesMsg) ==> BothOrNeither(seen + es)
    ensures r == Err(MixedSchemesMsg) ==> Uses(seen + es, "left") && Uses(seen + es, "to")
  {
    var lr, ft := leftRight, fromTo;
    var k := 0;
    assert seen + es[..k] == seen;
    while k < |es|
      invariant 0 <= k <= |es|
      invariant Consistent(seen + es[..k])
      invariant lr == Uses(seen + es[..k], "left")
      invariant ft == Uses(seen + es[..k], "to")
    {
      var e := es[k];
      assert IsPrefix(seen + es[..k + 1], seen + es);
      assert (seen + es[..k + 1])[|seen| + k] == e;
      PrefixKeeps(seen + es[..k + 1], seen + es);
      var thereIsLeft := "left" in e;
      var thereIsTo := "to" in e;
      if thereIsLeft != ("right" in e) {
        return Err(LeftWithoutRightMsg);
      }
      if thereIsTo != ("from" in e) {
        return Err(ToWithoutFromMsg);
      }
      if thereIsLeft == thereIsTo {
        return Err(BothSchemesMsg);
      }
      assert IsPrefix(seen + es[..k], seen + es[..k + 1]);
      PrefixKeeps(seen + es[..k], seen + es[..k + 1]);
      if thereIsLeft && ft {
        return Err(MixedSchemesMsg);
      }
      if thereIsTo && lr {
        return Err(MixedSchemesMsg);
      }
      if thereIsLeft {
        lr := true;
      } else {
        ft := true;
      }
      k := k + 1;
    }
    assert es[..k] == es;
    return Ok((lr, ft));
  }

  /** Lines 37-70: the keys naming the two ends of every edge. The result is
      an error exactly when a group is not a list, an entry is not paired or
      the entries mix both schemes; otherwise it is left/right as soon as one
      entry uses it and from/to otherwise, also when there are no edges. */
  method TopoKeys(groups: seq<Group>) returns (r: Result<(string, string), string>)
    ensures r.Ok? <==> AllLists(groups) && Consistent(Entries(groups))
    ensures r.Ok? ==> r.value == if Uses(Entries(groups), "left") then ("left", "right") else ("from", "to")
    ensures r == Err(NotListMsg) ==> !AllLists(groups)
    ensures r == Err(LeftWithoutRightMsg) ==> LeftUnpaired(Entries(groups))
    ensures r == Err(ToWithoutFromMsg) ==> ToUnpaired(Entries(groups))
    ensures r == Err(BothSchemesMsg) ==> BothOrNeither(Entries(groups))
    ensures r == Err(MixedSchemesMsg) ==> Uses(Entries(groups), "left") && Uses(Entries(groups), "to")
  {
    var leftRight, fromTo := false, false;
    var g := 0;
    while g < |groups|
      invariant 0 <= g <= |groups|
      invariant AllLists(groups[..g])
      invariant Consistent(Entries(groups[..g]))
      invariant leftRight == Uses(Entries(groups[..g]), "left")
      invariant fromTo == Uses(Entries(groups[..g]), "to")
    {
      if groups[g].NotAList? {
        assert !groups[g].EdgeList?;
        return Err(NotListMsg);
      }
      EntriesStep(groups, g);
      EntriesPrefix(groups, g + 1);
      var scanned := ScanEntries(Entries(groups[..g]), groups[g].entries, leftRight, fromTo);
      assert IsPrefix(Entries(groups[..g + 1]), Entries(groups));
      PrefixKeeps(Entries(groups[..g + 1]), Entries(groups));
      if scanned.Err? {
        return Err(scanned.error);
      }
      leftRight, fromTo := scanned.value.0, scanned.value.1;
      g := g + 1;
    }
    assert groups[..g] == groups;
    if leftRight {
      return Ok(("left", "right"));
    }
    return Ok(("from", "to"));
  }

  // ---------------------------------------------------------------------
  // Deprecated tags and aliases (read_net_yaml.py:253-273)

  /** The tag pModel is taken from: the last of model, edgeModel, arcModel,
      resistorModel and pipeModel that the dictionary has. */
  function PModelSource<V>(d: map<string, V>): (r: Option<string>)
    ensures r.Some? ==> r.value in d
    ensures r.None? <==> "model" !in d && "edgeModel" !in d && "arcModel" !in d
                         && "resistorModel" !in d && "pipeModel" !in d
  {
    if "pipeModel" in d then Some("pipeModel")
    else if "resistorModel" in d then Some("resistorModel")
    else if "arcModel" in d then Some("arcModel")
    else if "edgeModel" in d then Some("edgeModel")
    else if "model" in d then Some("model")
    else None
  }

  /** An element's dictionary once its aliases are resolved: pModel, then
      frictionModel and zModel take the values of their aliases, and the
      deprecated 'model' tag is dropped. */
  function Aliased<V>(d: map<string, V>): map<string, V>
  {
    var withModel := if PModelSource(d).Some? then d["pModel" := d[PModelSource(d).value]] else d;
    var withFriction := if "fModel" in d then withModel["frictionModel" := d["fModel"]] else withModel;
    var withZ := if "compressibilityFactorModel" in d then withFriction["zModel" := d["compressibilityFactorModel"]]
                 else withFriction;
    withZ - {"model"}
  }

  /** The dictionary of one element of the net description. */
  class ElementDict<V> {
    var fields: map<string, V>

    constructor (fields: map<string, V>)
      ensures this.fields == fields
    {
      this.fields := fields;
    }

    /** Lines 253-273: rename deprecated tags in place; the logging flag is
        handed back unchanged. */
    method DeprecationAliasChecks(doLog: bool) returns (r: bool)
      modifies this
      ensures r == doLog
      ensures fields == Aliased(old(fields))
    {
      if "model" in fields {
        fields := fields["pModel" := fields["model"]];
        fields := fields - {"model"};
      }
      fields := Copy(fields, "edgeModel", "pModel");
      fields := Copy(fields, "arcModel", "pModel");
      fields := Copy(fields, "resistorModel", "pModel");
      fields := Copy(fields, "pipeModel", "pModel");
      fields := Copy(fields, "fModel", "frictionModel");
      fields := Copy(fields, "compressibilityFactorModel", "zModel");
      r := doLog;
      CopiesResolve(old(fields));
    }
  }

  /** One line of 266-271: the target takes the alias's value if present. */
  function Copy<V>(d: map<string, V>, alias: string, target: string): (r: map<string, V>)
    ensures alias in d ==> r == d[target := d[alias]]
    ensures alias !in d ==> r == d
  {
    if alias in d then d[target := d[alias]] else d
  }

  function Deprecated<V>(d: map<string, V>): map<string, V>
  {
    if "model" in d then d["pModel" := d["model"]] - {"model"} else d
  }

  /** The renaming in the order of lines 260-271 is Aliased. */
  lemma CopiesResolve<V>(d: map<string, V>)
    ensures Copy(Copy(Copy(Copy(Copy(Copy(Deprecated(d), "edgeModel", "pModel"), "arcModel", "pModel"),
              "resistorModel", "pModel"), "pipeModel", "pModel"), "fModel", "frictionModel"),
              "compressibilityFactorModel", "zModel") == Aliased(d)
  {
    var d0 := Deprecated(d);
    var d1 := Copy(d0, "edgeModel", "pModel");
    var d2 := Copy(d1, "arcModel", "pModel");
    var d3 := Copy(d2, "resistorModel", "pModel");
    var d4 := Copy(d3, "pipeModel", "pModel");
    var m := if PModelSource(d).Some? then d["pModel" := d[PModelSource(d).value]] else d;
    PModelChain(d, d0, d1, d2, d3, d4);
    assert d4 == m - {"model"};
    var d5 := Copy(d4, "fModel", "frictionModel");
    var d6 := Copy(d5, "compressibilityFactorModel", "zModel");
    assert "fModel" in d4 <==> "fModel" in d;
    assert "fModel" in d ==> d4["fModel"] == d["fModel"];
    assert "compressibilityFactorModel" in d5 <==> "compressibilityFactorModel" in d;
    assert "compressibilityFactorModel" in d ==> d5["compressibilityFactorModel"] == d["compressibilityFactorModel"];
  }

  lemma PModelChain<V>(d: map<string, V>, d0: map<string, V>, d1: map<string, V>, d2: map<string, V>,
                       d3: map<string, V>, d4: map<string, V>)
    requires d0 == Deprecated(d) && d1 == Copy(d0, "edgeModel", "pModel") && d2 == Copy(d1, "arcModel", "pModel")
    requires d3 == Copy(d2, "resistorModel", "pModel") && d4 == Copy(d3, "pipeModel", "pModel")
    ensures d4 == (if PModelSource(d).Some? then d["pModel" := d[PModelSource(d).value]] else d) - {"model"}
  {
    var m := (if PModelSource(d).Some? then d["pModel" := d[PModelSource(d).value]] else d) - {"model"};
    forall k
      ensures (k in d4 <==> k in m) && (k in d4 ==> d4[k] == m[k])
    {
      if k == "pModel" && PModelSource(d).Some? {
        var src := PModelSource(d).value;
        if src == "pipeModel" {
        } else if src == "resistorModel" {
          assert d4 == d3;
        } else if src == "arcModel" {
          assert d4 == d3 == d2;
        } else if src == "edgeModel" {
          assert d4 == d3 == d2 == d1;
        } else {
          assert d4 == d3 == d2 == d1 == d0;
        }
      }
    }
  }

  /** What resolving the aliases promises: 'model' is gone, pModel holds
      pipeModel when it is there and otherwise the last alias present,
      frictionModel and zModel follow their aliases, and every other key is
      untouched. */
  lemma AliasedFacts<V>(d: map<string, V>)
    ensures "model" !in Aliased(d)
    ensures "pModel" in Aliased(d) <==> "pModel" in d || PModelSource(d).Some?
    ensures "pipeModel" in d ==> Aliased(d)["pModel"] == d["pipeModel"]
    ensures "pipeModel" !in d && "resistorModel" in d ==> Aliased(d)["pModel"] == d["resistorModel"]
    ensures "model" in d && "edgeModel" !in d && "arcModel" !in d && "resistorModel" !in d && "pipeModel" !in d ==>
              Aliased(d)["pModel"] == d["model"]
    ensures "fModel" in d ==> Aliased(d)["frictionModel"] == d["fModel"]
    ensures "compressibilityFactorModel" in d ==> Aliased(d)["zModel"] == d["compressibilityFactorModel"]
    ensures forall k :: k != "model" && k != "pModel" && k != "frictionModel" && k != "zModel" ==>
              (k in Aliased(d) <==> k in d) && (k in d ==> Aliased(d)[k] == d[k])
  {
  }

  /** Resolving the aliases a second time changes nothing. */
  lemma AliasedIdempotent<V>(d: map<string, V>)
    ensures Aliased(Aliased(d)) == Aliased(d)
  {
    var a := Aliased(d);
    var b := Aliased(a);
    forall k
      ensures (k in b <==> k in a) && (k in b ==> b[k] == a[k])
    {
      if k == "pModel" {
        AliasedAgainPModel(d);
      } else {
        AliasedAgainOther(d, k);
      }
    }
    assert b == a;
  }

  lemma AliasedAgainPModel<V>(d: map<string, V>)
    ensures ("pModel" in Aliased(Aliased(d)) <==> "pModel" in Aliased(d))
    ensures "pModel" in Aliased(d) ==> Aliased(Aliased(d))["pModel"] == Aliased(d)["pModel"]
  {
    var a := Aliased(d);
    AliasedFacts(d);
    AliasedFacts(a);
    if PModelSource(a).Some? {
      assert a["pModel"] == a[PModelSource(a).value];
    }
  }

  lemma AliasedAgainOther<V>(d: map<string, V>, k: string)
    requires k != "pModel"
    ensures (k in Aliased(Aliased(d)) <==> k in Aliased(d))
    ensures k in Aliased(d) ==> Aliased(Aliased(d))[k] == Aliased(d)[k]
  {
    var a := Aliased(d);
    AliasedFacts(d);
    AliasedFacts(a);
    if k == "frictionModel" && "fModel" in d {
      assert a["fModel"] == d["fModel"];
    } else if k == "zModel" && "compressibilityFactorModel" in d {
      assert a["compressibilityFactorModel"] == d["compressibilityFactorModel"];
    }
  }

  // ---------------------------------------------------------------------
  // Internal pipe geometry of active elements (read_net_yaml.py:200-210)

  /** The KeyError raised when an entry lacks a geometry key. */
  datatype Failure = KeyError(key: string)

  predicate Matches(objName: string, key: string)
  {
    Contains(key, "internal_pipe") && Contains(key, objName)
  }

  /** The (value, unit) pairs of length and diameter of one configuration
      entry; the first missing key is the error. */
  function PipeTuples<V>(val: map<string, V>): (r: Result<((V, V), (V, V)), Failure>)
    ensures r.Ok? <==> "length" in val && "length_unit" in val && "diameter" in val && "diameter_unit" in val
    ensures r.Ok? ==> r.value == ((val["length"], val["length_unit"]), (val["diameter"], val["diameter_unit"]))
    ensures r.Err? ==> r.error.key !in val
  {
    if "length" !in val then Err(KeyError("length"))
    else if "length_unit" !in val then Err(KeyError("length_unit"))
    else if "diameter" !in val then Err(KeyError("diameter"))
    else if "diameter_unit" !in val then Err(KeyError("diameter_unit"))
    else Ok(((val["length"], val["length_unit"]), (val["diameter"], val["diameter_unit"])))
  }

  /** The position of the last configuration entry meant for the object. */
  function LastMatch<V>(objName: string, raw: seq<(string, map<string, V>)>): (r: Option<nat>)
    ensures r.Some? ==> r.value < |raw| && Matches(objName, raw[r.value].0)
                        && forall j :: r.value < j < |raw| ==> !Matches(objName, raw[j].0)
    ensures r.None? ==> forall j :: 0 <= j < |raw| ==> !Matches(objName, raw[j].0)
    decreases |raw|
  {
    if raw == [] then None
    else if Matches(objName, raw[|raw| - 1].0) then Some(|raw| - 1)
    else
      var r := LastMatch(objName, raw[..|raw| - 1]);
      assert forall j :: 0 <= j < |raw| - 1 ==> raw[..|raw| - 1][j] == raw[j];
      r
  }

  /** Lines 200-210: the configuration entries are read in order and the
      last one whose key names both internal_pipe and the object decides the
      geometry; with none, the defaults come back unchanged. An entry meant
      for the object that lacks a geometry key fails. */
  method OverrideInternalPipeTuple<V>(objName: string, raw: seq<(string, map<string, V>)>,
                                      lengthTuple: (V, V), diameterTuple: (V, V))
    returns (r: Result<((V, V), (V, V)), Failure>)
    ensures r.Err? <==> exists j :: 0 <= j < |raw| && Matches(objName, raw[j].0) && PipeTuples(raw[j].1).Err?
    ensures r.Err? ==> exists j :: 0 <= j < |raw| && Matches(objName, raw[j].0) && PipeTuples(raw[j].1) == Err(r.error)
    ensures r.Ok? && LastMatch(objName, raw).None? ==> r.value == (lengthTuple, diameterTuple)
    ensures r.Ok? && LastMatch(objName, raw).Some? ==> r.value == PipeTuples(raw[LastMatch(objName, raw).value].1).value
  {
    var len, dia := lengthTuple, diameterTuple;
    var i := 0;
    while i < |raw|
      invariant 0 <= i <= |raw|
      invariant forall j :: 0 <= j < i && Matches(objName, raw[j].0) ==> PipeTuples(raw[j].1).Ok?
      invariant LastMatch(objName, raw[..i]).None? ==> (len, dia) == (lengthTuple, diameterTuple)
      invariant LastMatch(objName, raw[..i]).Some? ==>
                  (len, dia) == PipeTuples(raw[LastMatch(objName, raw[..i]).value].1).value
    {
      var (key, val) := raw[i];
      assert raw[..i + 1][..i] == raw[..i];
      if Matches(objName, key) {
        var t := PipeTuples(val);
        if t.Err? {
          return Err(t.error);
        }
        len, dia := t.value.0, t.value.1;
      }
      i := i + 1;
    }
    assert raw[..i] == raw;
    return Ok((len, dia));
  }
}
