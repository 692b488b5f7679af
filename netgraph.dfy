/** The network of the simulator as a differential-algebraic system: every
    node and edge owns a contiguous block of the state vector, the network
    hands out those blocks as elements are appended, keeps registers of
    names and types, and carries the gas mixture that edges inherit. */
module NetGraph {
  import opened Wrappers
  import opened Strings

  datatype Failure = ModellingError(msg: string) | IndexError(msg: string) | TypeError | ZeroDivisionError

  /** Standard gravity in m/s^2, the acceleration the slope factor scales. */
  const Gravity: real := 9.80665

  /** The parameters a gas mixture is built from; only its identity matters
      here. */
  datatype GasMixture = GasMixture(pc: real, tc: real, molMass: real, temperature: real, rho0: real)

  /** The decimal digits of n, as Python's str prints them. */
  function NatString(n: nat): (r: string)
    ensures |r| >= 1 && forall i :: 0 <= i < |r| ==> '0' <= r[i] <= '9'
  {
    var d := ['0', '1', '2', '3', '4', '5', '6', '7', '8', '9'];
    if n < 10 then [d[n]] else NatString(n / 10) + [d[n % 10]]
  }

  // ---------------------------------------------------------------------
  // Elements and their blocks of variables (netgraph.py:144-183)

  class Element {
    const name: string
    const kind: string
    const dim: nat
    var blockIdx: Option<int>

    /** Lines 146-158, before the element is appended to its network. */
    constructor (name: string, kind: string, dim: nat)
      ensures this.name == name && this.kind == kind && this.dim == dim && blockIdx.None?
    {
      this.name := name;
      this.kind := kind;
      this.dim := dim;
      blockIdx := None;
    }

    /** Lines 179-180. */
    function Describe(): string
    {
      "<elem name: " + name + " | type: " + kind + ">"
    }

    /** Lines 163-167: the position of the element's idx-th variable in the
        network's state vector. */
    function VariableId(idx: int): Result<int, Failure>
      reads this
    {
      if idx >= dim then
        Err(IndexError(Describe() + " out of bounds! idx: " + NatString(idx) + " has to be < dim: " + NatString(dim) + "!"))
      else if blockIdx.None? then Err(TypeError)
      else Ok(blockIdx.value + idx)
    }

    /** Lines 175-177: the ids of all the element's variables, which are the
        variable ids 0..dim-1 and form the range starting at the block. */
    function VarIds(): (r: Result<seq<int>, Failure>)
      reads this
      ensures r.Err? <==> dim > 0 && blockIdx.None?
      ensures r.Ok? ==> |r.value| == dim && forall k :: 0 <= k < dim ==> VariableId(k) == Ok(r.value[k])
      ensures r.Ok? && dim > 0 ==> forall k :: 0 <= k < dim ==> r.value[k] == blockIdx.value + k
    {
      if dim == 0 then Ok([])
      else if blockIdx.None? then Err(TypeError)
      else var start := blockIdx.value; Ok(seq(dim, k => start + k))
    }
  }

  /** The number of variables of the elements, together. */
  function Total(cs: seq<Element>): nat
  {
    if cs == [] then 0 else Total(cs[..|cs| - 1]) + cs[|cs| - 1].dim
  }

  lemma TotalStep(cs: seq<Element>, i: nat)
    requires i < |cs|
    ensures Total(cs[..i + 1]) == Total(cs[..i]) + cs[i].dim
  {
    assert cs[..i + 1][..i] == cs[..i];
  }

  /** A longer prefix holds at least the variables of a shorter one and of
      the element in between. */
  lemma {:induction false} TotalGrows(cs: seq<Element>, i: nat, j: nat)
    requires i < j <= |cs|
    ensures Total(cs[..i]) + cs[i].dim <= Total(cs[..j])
    decreases j - i
  {
    TotalStep(cs, i);
    if j > i + 1 {
      TotalGrows(cs, i + 1, j);
    }
  }

  // ---------------------------------------------------------------------
  // The network (netgraph.py:23-122)

  /** The message of line 110. */
  function NameTaken(name: string): string
  {
    "An Element by name: " + name + " was already part of the network!"
  }

  function Once(b: bool, t: string): seq<string>
  {
    if b then [t] else []
  }

  predicate Distinct(xs: seq<string>)
  {
    forall i, j :: 0 <= i < j < |xs| ==> xs[i] != xs[j]
  }

  class Network {
    const name: string
    var dim: nat
    var components: seq<Element>
    var nameReg: map<string, Element>
    var typeReg: map<string, seq<Element>>
    var allNodeTypes: seq<string>
    var allHiddenNodeTypes: seq<string>
    var allEdgeTypes: seq<string>
    var allHiddenEdgeTypes: seq<string>
    var allTypes: seq<string>
    var allHiddenTypes: seq<string>
    var gasMix: Option<GasMixture>
    var gasMixUpdateId: nat

    /** Every component owns the block that starts after the blocks of the
        components before it, and the network's dimension is their total. */
    predicate Placed()
      reads this, components
    {
      dim == Total(components)
      && forall i :: 0 <= i < |components| ==> components[i].blockIdx == Some(Total(components[..i]))
    }

    /** Every type seen is recorded once, as visible or hidden, and once as
        a node or an edge type; the type register has exactly these keys. */
    ghost predicate TypesRecorded()
      reads this`typeReg, this`allTypes, this`allHiddenTypes, this`allNodeTypes, this`allEdgeTypes
      reads this`allHiddenNodeTypes, this`allHiddenEdgeTypes
    {
      ListsRecorded() && forall t :: t in typeReg <==> t in allTypes || t in allHiddenTypes
    }

    ghost predicate ListsRecorded()
      reads this`allTypes, this`allHiddenTypes, this`allNodeTypes, this`allEdgeTypes
      reads this`allHiddenNodeTypes, this`allHiddenEdgeTypes
    {
      ListsOk(allTypes, allHiddenTypes, allNodeTypes, allEdgeTypes, allHiddenNodeTypes, allHiddenEdgeTypes)
    }

    /** Lines 25-54. */
    constructor (name: string)
      ensures this.name == name && dim == 0 && components == [] && nameReg == map[] && typeReg == map[]
      ensures allTypes == [] && allHiddenTypes == [] && allNodeTypes == [] && allEdgeTypes == []
      ensures allHiddenNodeTypes == [] && allHiddenEdgeTypes == []
      ensures gasMix.None? && gasMixUpdateId == 0
      ensures Placed() && TypesRecorded()
    {
      this.name := name;
      dim := 0;
      components := [];
      nameReg := map[];
      typeReg := map[];
      allNodeTypes, allHiddenNodeTypes, allEdgeTypes, allHiddenEdgeTypes := [], [], [], [];
      allTypes, allHiddenTypes := [], [];
      gasMix := None;
      gasMixUpdateId := 0;
    }

    /** Lines 56-60: the mixture, which must have been set before. */
    function GasMixValue(): (r: Result<Option<GasMixture>, Failure>)
      reads this
      ensures r.Err? <==> gasMixUpdateId == 0
      ensures r.Ok? ==> r.value == gasMix
    {
      if gasMixUpdateId == 0 then Err(ModellingError("gasMix was requested from the net but never set before!"))
      else Ok(gasMix)
    }

    /** Lines 66-69: every assignment counts as an update. */
    method SetGasMix(m: Option<GasMixture>)
      modifies this
      ensures gasMixUpdateId == old(gasMixUpdateId) + 1 && gasMix == m
      ensures GasMixValue() == Ok(m)
      ensures dim == old(dim) && components == old(components) && nameReg == old(nameReg) && typeReg == old(typeReg)
      ensures allTypes == old(allTypes) && allHiddenTypes == old(allHiddenTypes)
      ensures allNodeTypes == old(allNodeTypes) && allEdgeTypes == old(allEdgeTypes)
      ensures allHiddenNodeTypes == old(allHiddenNodeTypes) && allHiddenEdgeTypes == old(allHiddenEdgeTypes)
    {
      gasMixUpdateId := gasMixUpdateId + 1;
      gasMix := m;
    }

    /** Lines 101-122: the element gets the next block of variables and is
        kept as a component even when its name is taken, in which case the
        registers stay as they were and the call fails. Otherwise the name is
        registered, the element joins its type's list, and a type not seen
        before is recorded in the visible or hidden lists and in the node or
        edge lists. */
    method Append(obj: Element) returns (r: Result<(), Failure>)
      modifies this`dim, this`components, this`nameReg, this`typeReg, obj`blockIdx
      modifies this`allTypes, this`allHiddenTypes, this`allNodeTypes, this`allEdgeTypes
      modifies this`allHiddenNodeTypes, this`allHiddenEdgeTypes
      ensures obj.blockIdx == Some(old(dim)) && dim == old(dim) + obj.dim
      ensures components == old(components) + [obj]
      ensures old(Placed()) && obj !in old(components) ==> Placed()
      ensures r.Err? <==> old(obj.name in nameReg)
      ensures r.Err? ==> r.error == ModellingError(NameTaken(obj.name))
      ensures r.Err? ==> nameReg == old(nameReg) && typeReg == old(typeReg)
                         && allTypes == old(allTypes) && allHiddenTypes == old(allHiddenTypes)
                         && allNodeTypes == old(allNodeTypes) && allEdgeTypes == old(allEdgeTypes)
                         && allHiddenNodeTypes == old(allHiddenNodeTypes) && allHiddenEdgeTypes == old(allHiddenEdgeTypes)
      ensures r.Ok? ==> nameReg == old(nameReg)[obj.name := obj]
      ensures r.Ok? ==> typeReg == old(typeReg)[obj.kind := (if obj.kind in old(typeReg) then old(typeReg)[obj.kind] else []) + [obj]]
      ensures r.Ok? ==>
                var isNew := old(obj.kind !in allTypes && obj.kind !in allHiddenTypes);
                var hidden := Contains(obj.kind, "hidden");
                var isNode := Contains(obj.kind, "node");
                allTypes == old(allTypes) + Once(isNew && !hidden, obj.kind)
                && allHiddenTypes == old(allHiddenTypes) + Once(isNew && hidden, obj.kind)
                && allNodeTypes == old(allNodeTypes) + Once(isNew && !hidden && isNode, obj.kind)
                && allEdgeTypes == old(allEdgeTypes) + Once(isNew && !hidden && !isNode, obj.kind)
                && allHiddenNodeTypes == old(allHiddenNodeTypes) + Once(isNew && hidden && isNode, obj.kind)
                && allHiddenEdgeTypes == old(allHiddenEdgeTypes) + Once(isNew && hidden && !isNode, obj.kind)
      ensures old(TypesRecorded()) ==> TypesRecorded()
      ensures gasMix == old(gasMix) && gasMixUpdateId == old(gasMixUpdateId)
    {
      ghost var recorded := TypesRecorded();
      Place(obj);
      assert recorded == TypesRecorded();
      if obj.name in nameReg {
        return Err(ModellingError(NameTaken(obj.name)));
      }
      Register(obj);
      r := Ok(());
    }

    /** Lines 102-105: the element's block starts at the current dimension. */
    method Place(obj: Element)
      modifies this`dim, this`components, obj`blockIdx
      ensures obj.blockIdx == Some(old(dim)) && dim == old(dim) + obj.dim
      ensures components == old(components) + [obj]
      ensures old(Placed()) && obj !in old(components) ==> Placed()
    {
      ghost var before := components;
      obj.blockIdx := Some(dim);
      dim := dim + obj.dim;
      components := components + [obj];
      if old(Placed()) && obj !in before {
        AppendPlaces(before, obj);
      }
    }

    /** Lines 107-122 past the name check: the name and the type are
        registered. */
    method Register(obj: Element)
      modifies this`nameReg, this`typeReg, this`allTypes, this`allHiddenTypes, this`allNodeTypes
      modifies this`allEdgeTypes, this`allHiddenNodeTypes, this`allHiddenEdgeTypes
      ensures nameReg == old(nameReg)[obj.name := obj]
      ensures typeReg == old(typeReg)[obj.kind := (if obj.kind in old(typeReg) then old(typeReg)[obj.kind] else []) + [obj]]
      ensures var isNew := old(obj.kind !in allTypes && obj.kind !in allHiddenTypes);
              var hidden := Contains(obj.kind, "hidden");
              var isNode := Contains(obj.kind, "node");
              allTypes == old(allTypes) + Once(isNew && !hidden, obj.kind)
              && allHiddenTypes == old(allHiddenTypes) + Once(isNew && hidden, obj.kind)
              && allNodeTypes == old(allNodeTypes) + Once(isNew && !hidden && isNode, obj.kind)
              && allEdgeTypes == old(allEdgeTypes) + Once(isNew && !hidden && !isNode, obj.kind)
              && allHiddenNodeTypes == old(allHiddenNodeTypes) + Once(isNew && hidden && isNode, obj.kind)
              && allHiddenEdgeTypes == old(allHiddenEdgeTypes) + Once(isNew && hidden && !isNode, obj.kind)
      ensures old(TypesRecorded()) ==> TypesRecorded()
    {
      nameReg := nameReg[obj.name := obj];
      var listed := if obj.kind in typeReg then typeReg[obj.kind] else [];
      typeReg := typeReg[obj.kind := listed + [obj]];
      RecordType(obj.kind);
    }

    /** Lines 114-122: a type not recorded before is added once to the
        visible or hidden list, and to the node or edge list of that kind. */
    method RecordType(kind: string)
      modifies this`allTypes, this`allHiddenTypes, this`allNodeTypes, this`allEdgeTypes
      modifies this`allHiddenNodeTypes, this`allHiddenEdgeTypes
      ensures var isNew := old(kind !in allTypes && kind !in allHiddenTypes);
              var hidden := Contains(kind, "hidden");
              var isNode := Contains(kind, "node");
              allTypes == old(allTypes) + Once(isNew && !hidden, kind)
              && allHiddenTypes == old(allHiddenTypes) + Once(isNew && hidden, kind)
              && allNodeTypes == old(allNodeTypes) + Once(isNew && !hidden && isNode, kind)
              && allEdgeTypes == old(allEdgeTypes) + Once(isNew && !hidden && !isNode, kind)
              && allHiddenNodeTypes == old(allHiddenNodeTypes) + Once(isNew && hidden && isNode, kind)
              && allHiddenEdgeTypes == old(allHiddenEdgeTypes) + Once(isNew && hidden && !isNode, kind)
      ensures old(ListsRecorded()) ==> ListsRecorded()
      ensures forall t :: t in allTypes || t in allHiddenTypes <==> t == kind || t in old(allTypes) || t in old(allHiddenTypes)
    {
      var all, hid, nodes, edges, hidNodes, hidEdges :=
        RecordIn(kind, allTypes, allHiddenTypes, allNodeTypes, allEdgeTypes, allHiddenNodeTypes, allHiddenEdgeTypes);
      RecordKeeps(allTypes, allHiddenTypes, allNodeTypes, allEdgeTypes, allHiddenNodeTypes, allHiddenEdgeTypes, kind);
      allTypes, allHiddenTypes, allNodeTypes, allEdgeTypes, allHiddenNodeTypes, allHiddenEdgeTypes :=
        all, hid, nodes, edges, hidNodes, hidEdges;
    }
  }

  /** The branches of lines 114-122 on the six lists. */
  method RecordIn(kind: string, all0: seq<string>, hid0: seq<string>, nodes0: seq<string>, edges0: seq<string>,
                  hidNodes0: seq<string>, hidEdges0: seq<string>)
    returns (all: seq<string>, hid: seq<string>, nodes: seq<string>, edges: seq<string>,
             hidNodes: seq<string>, hidEdges: seq<string>)
    ensures var isNew := kind !in all0 && kind !in hid0;
      var hidden := Contains(kind, "hidden");
      var isNode := Contains(kind, "node");
      && all == all0 + Once(isNew && !hidden, kind)
      && hid == hid0 + Once(isNew && hidden, kind)
      && nodes == nodes0 + Once(isNew && !hidden && isNode, kind)
      && edges == edges0 + Once(isNew && !hidden && !isNode, kind)
      && hidNodes == hidNodes0 + Once(isNew && hidden && isNode, kind)
      && hidEdges == hidEdges0 + Once(isNew && hidden && !isNode, kind)
  {
    all, hid, nodes, edges, hidNodes, hidEdges := all0, hid0, nodes0, edges0, hidNodes0, hidEdges0;
    if kind !in all && kind !in hid {
      if !Contains(kind, "hidden") {
        all := all + [kind];
      } else {
        hid := hid + [kind];
      }
      if Contains(kind, "node") {
        if !Contains(kind, "hidden") {
          nodes := nodes + [kind];
        } else {
          hidNodes := hidNodes + [kind];
        }
      } else {
        if !Contains(kind, "hidden") {
          edges := edges + [kind];
        } else {
          hidEdges := hidEdges + [kind];
        }
      }
    } else {
      assert all0 + [] == all0 && hid0 + [] == hid0 && nodes0 + [] == nodes0;
      assert edges0 + [] == edges0 && hidNodes0 + [] == hidNodes0 && hidEdges0 + [] == hidEdges0;
    }
  }

  /** The six type lists: each without repeats, the visible ones free of
      "hidden" and the hidden ones holding it, and the node and edge lists
      splitting each by whether the name holds "node". */
  ghost predicate ListsOk(all: seq<string>, hid: seq<string>, nodes: seq<string>, edges: seq<string>,
                          hidNodes: seq<string>, hidEdges: seq<string>)
  {
    Distinct(all) && Distinct(hid)
    && Distinct(nodes) && Distinct(edges)
    && Distinct(hidNodes) && Distinct(hidEdges)
    && (forall t :: t in all ==> !Contains(t, "hidden"))
    && (forall t :: t in hid ==> Contains(t, "hidden"))
    && (forall t :: t in nodes <==> t in all && Contains(t, "node"))
    && (forall t :: t in edges <==> t in all && !Contains(t, "node"))
    && (forall t :: t in hidNodes <==> t in hid && Contains(t, "node"))
    && (forall t :: t in hidEdges <==> t in hid && !Contains(t, "node"))
  }

  lemma DistinctSnoc(xs: seq<string>, t: string)
    requires Distinct(xs) && t !in xs
    ensures Distinct(xs + [t])
  {
    var ys := xs + [t];
    forall i, j | 0 <= i < j < |ys| ensures ys[i] != ys[j] {
      assert ys[i] == xs[i];
      if j < |xs| {
        assert ys[j] == xs[j];
      }
    }
  }

  /** Recording a type keeps the lists well kept. */
  lemma RecordKeeps(all: seq<string>, hid: seq<string>, nodes: seq<string>, edges: seq<string>,
                    hidNodes: seq<string>, hidEdges: seq<string>, kind: string)
    ensures var isNew := kind !in all && kind !in hid;
      var hidden := Contains(kind, "hidden");
      var isNode := Contains(kind, "node");
      && (ListsOk(all, hid, nodes, edges, hidNodes, hidEdges) ==>
          ListsOk(all + Once(isNew && !hidden, kind), hid + Once(isNew && hidden, kind),
                  nodes + Once(isNew && !hidden && isNode, kind), edges + Once(isNew && !hidden && !isNode, kind),
                  hidNodes + Once(isNew && hidden && isNode, kind), hidEdges + Once(isNew && hidden && !isNode, kind)))
      && (forall t :: t in all + Once(isNew && !hidden, kind) || t in hid + Once(isNew && hidden, kind) <==>
                      t == kind || t in all || t in hid)
  {
    var isNew := kind !in all && kind !in hid;
    if !ListsOk(all, hid, nodes, edges, hidNodes, hidEdges) {
      assert isNew ==> Once(isNew && !Contains(kind, "hidden"), kind) + Once(isNew && Contains(kind, "hidden"), kind) == [kind];
    } else if isNew {
      assert kind !in nodes && kind !in edges && kind !in hidNodes && kind !in hidEdges;
      DistinctSnoc(all, kind);
      DistinctSnoc(hid, kind);
      DistinctSnoc(nodes, kind);
      DistinctSnoc(edges, kind);
      DistinctSnoc(hidNodes, kind);
      DistinctSnoc(hidEdges, kind);
    } else {
      assert all + [] == all && hid + [] == hid && nodes + [] == nodes;
      assert edges + [] == edges && hidNodes + [] == hidNodes && hidEdges + [] == hidEdges;
    }
  }

  /** The placement after an append, stated on the component lists. */
  lemma AppendPlaces(before: seq<Element>, obj: Element)
    requires forall i :: 0 <= i < |before| ==> before[i].blockIdx == Some(Total(before[..i]))
    requires obj.blockIdx == Some(Total(before))
    ensures forall i :: 0 <= i < |before + [obj]| ==> (before + [obj])[i].blockIdx == Some(Total((before + [obj])[..i]))
    ensures Total(before + [obj]) == Total(before) + obj.dim
  {
    var after := before + [obj];
    assert after[..|after| - 1] == before;
    forall i | 0 <= i < |after|
      ensures after[i].blockIdx == Some(Total(after[..i]))
    {
      if i < |before| {
        assert after[..i] == before[..i];
      } else {
        assert after[..i] == before;
      }
    }
  }

  /** Placed components own disjoint blocks inside the network's dimension,
      in the order they were appended. */
  lemma BlocksDisjoint(net: Network)
    requires net.Placed()
    ensures forall i, j :: 0 <= i < j < |net.components| ==>
              net.components[i].blockIdx.value + net.components[i].dim <= net.components[j].blockIdx.value
    ensures forall i :: 0 <= i < |net.components| ==>
              0 <= net.components[i].blockIdx.value && net.components[i].blockIdx.value + net.components[i].dim <= net.dim
  {
    var cs := net.components;
    forall i, j | 0 <= i < j < |cs|
      ensures cs[i].blockIdx.value + cs[i].dim <= cs[j].blockIdx.value
    {
      TotalGrows(cs, i, j);
    }
    forall i | 0 <= i < |cs|
      ensures cs[i].blockIdx.value + cs[i].dim <= net.dim
    {
      TotalGrows(cs, i, |cs|);
      assert cs[..|cs|] == cs;
    }
  }

  /** The variable ids of two different placed components never meet, and
      all of them index the network's state vector. */
  lemma VarIdsApart(net: Network, i: nat, j: nat)
    requires net.Placed() && i < |net.components| && j < |net.components| && i != j
    ensures net.components[i].VarIds().Ok? && net.components[j].VarIds().Ok?
    ensures forall p :: 0 <= p < net.components[i].dim ==> 0 <= net.components[i].VarIds().value[p] < net.dim
    ensures forall p, q :: 0 <= p < net.components[i].dim && 0 <= q < net.components[j].dim ==>
              net.components[i].VarIds().value[p] != net.components[j].VarIds().value[q]
  {
    BlocksDisjoint(net);
  }

  // ---------------------------------------------------------------------
  // Nodes (netgraph.py:186-265)

  /** The equation a node contributes: pressure given or flow balance. */
  datatype Condition = NoCondition | PressureCondition | FlowCondition

  class Node {
    const elem: Element
    var behaviour: Option<real>
    var callFunc: Condition
    var height: Option<real>
    var leftEdges: seq<Edge>
    var rightEdges: seq<Edge>

    /** Lines 195-215, after the element is appended: the behaviour starts
        at 0.5, so the node balances flows; the height is unset. */
    constructor (elem: Element)
      ensures this.elem == elem && behaviour == Some(0.5) && callFunc == FlowCondition
      ensures height.None? && leftEdges == [] && rightEdges == []
    {
      this.elem := elem;
      behaviour := None;
      height := None;
      callFunc := NoCondition;
      leftEdges := [];
      rightEdges := [];
      new;
      SetBehaviour(Some(0.5));
    }

    /** Lines 241-249: no value leaves the node as it is; 0 selects the
        pressure condition and anything else the flow balance. */
    method SetBehaviour(b: Option<real>)
      modifies this
      ensures b.None? ==> behaviour == old(behaviour) && callFunc == old(callFunc)
      ensures b.Some? ==> behaviour == b && (callFunc == PressureCondition <==> b.value == 0.0)
      ensures b.Some? ==> callFunc != NoCondition
      ensures height == old(height) && leftEdges == old(leftEdges) && rightEdges == old(rightEdges)
    {
      if b.Some? {
        behaviour := b;
        if b.value == 0.0 {
          callFunc := PressureCondition;
        } else {
          callFunc := FlowCondition;
        }
      }
    }

    /** Lines 217-223: the behaviour goes through its setter and the height
        is stored in metres; the coordinates are not modelled. */
    method AssignTopoInfo(b: Option<real>, heightValue: real, heightUnit: string, toMeter: (real, string) -> real)
      modifies this
      ensures height == Some(toMeter(heightValue, heightUnit))
      ensures b.None? ==> behaviour == old(behaviour) && callFunc == old(callFunc)
      ensures b.Some? ==> behaviour == b && (callFunc == PressureCondition <==> b.value == 0.0)
      ensures leftEdges == old(leftEdges) && rightEdges == old(rightEdges)
    {
      SetBehaviour(b);
      height := Some(toMeter(heightValue, heightUnit));
    }

    /** Lines 225-227. */
    function PressureId(): Result<int, Failure>
      reads elem
    {
      elem.VariableId(0)
    }
  }

  /** Lines 146-161 with 101-122: the element every node and edge starts
      from, appended to the network. It is placed even when its name is
      taken, which fails. */
  method AppendNew(net: Network, name: string, kind: string, dim: nat) returns (e: Element, r: Result<(), Failure>)
    modifies net
    ensures fresh(e) && e.name == name && e.kind == kind && e.dim == dim && e.blockIdx == Some(old(net.dim))
    ensures r.Err? <==> old(name in net.nameReg)
    ensures r.Err? ==> r.error == ModellingError(NameTaken(name)) && net.nameReg == old(net.nameReg)
    ensures r.Ok? ==> net.nameReg == old(net.nameReg)[name := e]
    ensures net.components == old(net.components) + [e] && net.dim == old(net.dim) + dim
    ensures old(net.Placed()) ==> net.Placed()
    ensures old(net.TypesRecorded()) ==> net.TypesRecorded()
  {
    e := new Element(name, kind, dim);
    r := net.Append(e);
  }

  /** Lines 188-195: a node is an element of type prefix + "node". */
  method NewNode(net: Network, name: string, dim: nat, typePrefix: string) returns (r: Result<Node, Failure>)
    modifies net
    ensures r.Err? <==> old(name in net.nameReg)
    ensures r.Ok? ==> fresh(r.value) && fresh(r.value.elem) && r.value.elem.kind == typePrefix + "node"
                      && r.value.elem.name == name && r.value.elem.dim == dim
                      && r.value.elem.blockIdx == Some(old(net.dim)) && net.nameReg == old(net.nameReg)[name := r.value.elem]
                      && r.value.leftEdges == [] && r.value.rightEdges == []
    ensures |net.components| == |old(net.components)| + 1 && net.dim == old(net.dim) + dim
    ensures old(net.Placed()) ==> net.Placed()
    ensures old(net.TypesRecorded()) ==> net.TypesRecorded()
  {
    var e, appended := AppendNew(net, name, typePrefix + "node", dim);
    if appended.Err? {
      return Err(appended.error);
    }
    var n := new Node(e);
    return Ok(n);
  }

  // ---------------------------------------------------------------------
  // Edges (netgraph.py:271-582)

  class Edge {
    const net: Network
    const elem: Element
    const left: Node
    const right: Node
    var singleFlow: bool
    var length: Option<real>
    var slopeFactor: Option<real>
    var diameter: Option<real>
    var diameterReset: Option<bool>
    var ownGasMix: Option<GasMixture>
    var gasMixReset: Option<bool>
    var lastGasMixUpdateId: Option<nat>

    /** An edge offering two flows has at least two variables. */
    predicate FlowsOk()
      reads this
    {
      singleFlow || elem.dim >= 2
    }

    /** Lines 284-338, after the element is appended: the edge joins the
        edge lists of its end nodes and is single-flow unless it is a pipe
        with more than one variable. */
    constructor (net: Network, elem: Element, left: Node, right: Node)
      modifies left`leftEdges, right`rightEdges
      ensures this.net == net && this.elem == elem && this.left == left && this.right == right
      ensures singleFlow == !(Contains(elem.kind, "pipe") && elem.dim > 1)
      ensures FlowsOk()
      ensures length.None? && slopeFactor.None? && diameter.None? && ownGasMix.None? && lastGasMixUpdateId.None?
      ensures left.leftEdges == old(left.leftEdges) + [this]
      ensures right.rightEdges == old(right.rightEdges) + [this]
    {
      this.net := net;
      this.elem := elem;
      this.left := left;
      this.right := right;
      singleFlow := true;
      length := None;
      slopeFactor := None;
      diameter := None;
      diameterReset := None;
      ownGasMix := None;
      gasMixReset := None;
      lastGasMixUpdateId := None;
      new;
      left.leftEdges := left.leftEdges + [this];
      right.rightEdges := right.rightEdges + [this];
      var ok := SetSingleFlow(!(Contains(elem.kind, "pipe") && elem.dim > 1));
    }

    /** Lines 344-350: two flows need two variables. */
    method SetSingleFlow(s: bool) returns (r: Result<(), Failure>)
      modifies this
      ensures r.Err? <==> !s && elem.dim < 2
      ensures r.Err? ==> singleFlow == old(singleFlow) && r.error == ModellingError(
                elem.Describe() + " cannot provide 2 flow variables qL, qR with dim: " + NatString(elem.dim) + " < 2!")
      ensures r.Ok? ==> singleFlow == s
      ensures old(FlowsOk()) ==> FlowsOk()
      ensures r.Ok? ==> FlowsOk()
      ensures length == old(length) && slopeFactor == old(slopeFactor) && diameter == old(diameter) && diameterReset == old(diameterReset)
      ensures ownGasMix == old(ownGasMix) && gasMixReset == old(gasMixReset)
      ensures lastGasMixUpdateId == old(lastGasMixUpdateId)
    {
      if !s && elem.dim < 2 {
        return Err(ModellingError(
          elem.Describe() + " cannot provide 2 flow variables qL, qR with dim: " + NatString(elem.dim) + " < 2!"));
      }
      singleFlow := s;
      r := Ok(());
    }

    /** Lines 527-529. */
    function LeftFlowId(): Result<int, Failure>
      reads elem
    {
      elem.VariableId(0)
    }

    /** Lines 539-546: the right flow is the first variable of a single-flow
        edge and the second otherwise. */
    function RightFlowId(): Result<int, Failure>
      reads this, elem
    {
      elem.VariableId(if singleFlow then 0 else 1)
    }

    /** Lines 372-385: the length must be positive; it is stored in metres,
        and then the slope factor is g times the height difference from the
        left to the right node over the length. That division fails, after
        the length was stored, while either node has no height yet (a
        TypeError on None) or when the length converts to 0. */
    method SetLength(value: real, unit: string, toMeter: (real, string) -> real) returns (r: Result<(), Failure>)
      modifies this
      ensures value <= 0.0 ==> r == Err(ModellingError(elem.Describe() + " edge length need to be strictly positive!"))
                               && length == old(length) && slopeFactor == old(slopeFactor)
      ensures value > 0.0 ==> length == Some(toMeter(value, unit))
      ensures value > 0.0 && (left.height.None? || right.height.None?) ==> r == Err(TypeError) && slopeFactor == old(slopeFactor)
      ensures value > 0.0 && left.height.Some? && right.height.Some? && toMeter(value, unit) == 0.0 ==>
                r == Err(ZeroDivisionError) && slopeFactor == old(slopeFactor)
      ensures r.Ok? <==> value > 0.0 && left.height.Some? && right.height.Some? && toMeter(value, unit) != 0.0
      ensures r.Ok? ==> slopeFactor == Some(Gravity * ((right.height.value - left.height.value) / toMeter(value, unit)))
      ensures singleFlow == old(singleFlow) && diameter == old(diameter) && diameterReset == old(diameterReset)
      ensures ownGasMix == old(ownGasMix) && gasMixReset == old(gasMixReset)
      ensures lastGasMixUpdateId == old(lastGasMixUpdateId)
    {
      if value <= 0.0 {
        return Err(ModellingError(elem.Describe() + " edge length need to be strictly positive!"));
      }
      var meters := toMeter(value, unit);
      length := Some(meters);
      if left.height.None? || right.height.None? {
        return Err(TypeError);
      }
      if meters == 0.0 {
        return Err(ZeroDivisionError);
      }
      slopeFactor := Some(Gravity * ((right.height.value - left.height.value) / meters));
      r := Ok(());
    }

    /** Lines 391-403: the diameter must be positive; it is stored in metres
        and marks the quantities derived from it for recomputation. */
    method SetDiameter(value: real, unit: string, toMeter: (real, string) -> real) returns (r: Result<(), Failure>)
      modifies this
      ensures r.Err? <==> value <= 0.0
      ensures r.Err? ==> diameter == old(diameter) && diameterReset == old(diameterReset)
                         && r.error == ModellingError(elem.Describe() + " edge diameter need to be strictly positive!")
      ensures r.Ok? ==> diameter == Some(toMeter(value, unit)) && diameterReset == Some(true)
      ensures singleFlow == old(singleFlow) && length == old(length) && slopeFactor == old(slopeFactor)
      ensures ownGasMix == old(ownGasMix) && gasMixReset == old(gasMixReset)
      ensures lastGasMixUpdateId == old(lastGasMixUpdateId)
    {
      if value <= 0.0 {
        return Err(ModellingError(elem.Describe() + " edge diameter need to be strictly positive!"));
      }
      diameter := Some(toMeter(value, unit));
      diameterReset := Some(true);
      r := Ok(());
    }

    /** Lines 430-433. */
    method SetGasMix(m: Option<GasMixture>)
      modifies this
      ensures ownGasMix == m && gasMixReset == Some(true)
      ensures singleFlow == old(singleFlow) && length == old(length) && slopeFactor == old(slopeFactor) && diameter == old(diameter)
      ensures diameterReset == old(diameterReset) && lastGasMixUpdateId == old(lastGasMixUpdateId)
    {
      ownGasMix := m;
      gasMixReset := Some(true);
    }

    /** Lines 420-428: an edge without a mixture of its own inherits the
        network's, and raises its reset flag exactly when the network's
        update id differs from the one it saw last. */
    method GasMix() returns (r: Result<Option<GasMixture>, Failure>)
      modifies this
      ensures old(ownGasMix).Some? ==>
                r == Ok(old(ownGasMix)) && gasMixReset == old(gasMixReset) && lastGasMixUpdateId == old(lastGasMixUpdateId)
      ensures old(ownGasMix).None? ==> r == net.GasMixValue() && lastGasMixUpdateId == Some(net.gasMixUpdateId)
      ensures old(ownGasMix).None? && old(lastGasMixUpdateId) != Some(net.gasMixUpdateId) ==> gasMixReset == Some(true)
      ensures old(lastGasMixUpdateId) == Some(net.gasMixUpdateId) ==> gasMixReset == old(gasMixReset)
      ensures ownGasMix == old(ownGasMix) && singleFlow == old(singleFlow) && length == old(length) && slopeFactor == old(slopeFactor)
      ensures diameter == old(diameter) && diameterReset == old(diameterReset)
    {
      if ownGasMix.None? {
        var current := net.gasMixUpdateId;
        if lastGasMixUpdateId != Some(current) {
          gasMixReset := Some(true);
          lastGasMixUpdateId := Some(current);
        }
        return net.GasMixValue();
      }
      return Ok(ownGasMix);
    }
  }

  /** A placed edge whose flows fit its variables has both flow ids; they
      coincide exactly for a single-flow edge. */
  lemma FlowIds(e: Edge)
    requires e.FlowsOk() && e.elem.blockIdx.Some? && e.elem.dim >= 1
    ensures e.LeftFlowId().Ok? && e.RightFlowId().Ok?
    ensures e.LeftFlowId() == e.RightFlowId() <==> e.singleFlow
    ensures e.RightFlowId().value - e.elem.blockIdx.value < e.elem.dim
  {
  }

  /** Lines 273-301: an edge is an element of type prefix + "edge-" + its
      kind, between two nodes. The element is appended first, so a taken
      name fails before either node's edge list changes. */
  method NewEdge(net: Network, name: string, edgeType: string, dim: nat, left: Node, right: Node, typePrefix: string)
    returns (r: Result<Edge, Failure>)
    modifies net, left, right
    ensures r.Err? <==> old(name in net.nameReg)
    ensures r.Ok? ==> fresh(r.value) && fresh(r.value.elem) && r.value.elem.kind == typePrefix + "edge-" + edgeType
                      && r.value.elem.blockIdx == Some(old(net.dim)) && r.value.FlowsOk()
                      && r.value.left == left && r.value.right == right
    ensures r.Err? ==> left.leftEdges == old(left.leftEdges) && right.rightEdges == old(right.rightEdges)
    ensures r.Ok? ==> left.leftEdges == old(left.leftEdges) + [r.value] && right.rightEdges == old(right.rightEdges) + [r.value]
    ensures |net.components| == |old(net.components)| + 1 && net.dim == old(net.dim) + dim
    ensures old(net.Placed()) ==> net.Placed()
    ensures old(net.TypesRecorded()) ==> net.TypesRecorded()
  {
    var e, appended := AppendNew(net, name, typePrefix + "edge-" + edgeType, dim);
    if appended.Err? {
      return Err(appended.error);
    }
    var edge := new Edge(net, e, left, right);
    return Ok(edge);
  }
}
