/**
ComfyUI workflow templates: the rebuilding of a node graph from a stored template and a caller's
params (packages/connectors/src/comfyui/template.ts).

`Reconstruct` is the specification; the method `ReconstructGraph` follows the source: it clones the
stored graph and then writes into the clone's nodes in place.
*/
module Workflow {
  import opened Prelude

  /** A JavaScript number. JSON spells an infinity as `1e999`. */
  datatype Num = Finite(value: real) | PosInf | NegInf | NaN

  predicate Less(a: Num, b: Num) {
    match (a, b)
    case (Finite(x), Finite(y)) => x < y
    case (NegInf, Finite(_)) => true
    case (NegInf, PosInf) => true
    case (Finite(_), PosInf) => true
    case _ => false
  }

  /** An untyped value. `Other` stands for everything that is neither a string nor a number. */
  datatype Value = Text(text: string) | Number(num: Num) | Other(id: nat)

  datatype Target = Target(node: string, input: string)

  datatype ParamSpec =
    | TextParam(name: string, target: Target)
    | SeedParam(name: string, targets: seq<Target>)
    | NumberParam(name: string, target: Target, min: Option<Num>, max: Option<Num>)
    | ImageParam(name: string, target: Target)

  datatype Node = Node(classType: string, inputs: map<string, Value>)

  type Graph = map<string, Node>

  /** A UTF-16 code unit: what the regular expressions and slices of the source work on. */
  type CodeUnit = x: int | 0 <= x < 0x1_0000

  datatype Template = Template(id: seq<CodeUnit>, graph: Graph, params: seq<ParamSpec>, cost: Num)

  datatype Reason = UnknownParam | MissingNode | NotAString | NotANumber | BelowMin | AboveMax | NoUpload

  datatype Result<+T> = Ok(value: T) | Err(reason: Reason)

  /** One call's inputs: the caller's params, the trusted filenames, and the random source by draw. */
  datatype Call = Call(params: map<string, Value>, uploads: map<string, string>, rng: nat -> real)

  // ---- Specification ----

  predicate Declared(specs: seq<ParamSpec>, name: string) {
    exists i :: 0 <= i < |specs| && specs[i].name == name
  }

  function Seed(call: Call, draw: nat): Value {
    Number(Finite((call.rng(draw) * 1000000000000.0).Floor as real))
  }

  function Bind(g: Graph, t: Target, v: Value): Result<Graph> {
    if t.node !in g then Err(MissingNode)
    else Ok(g[t.node := g[t.node].(inputs := g[t.node].inputs[t.input := v])])
  }

  function BindAll(g: Graph, ts: seq<Target>, v: Value): Result<Graph> {
    if ts == [] then Ok(g)
    else
      var r := Bind(g, ts[0], v);
      if r.Err? then r else BindAll(r.value, ts[1..], v)
  }

  /** The value a supplied non-seed param writes, or why it is refused. */
  function Checked(spec: ParamSpec, call: Call): Result<Value>
    requires !spec.SeedParam? && spec.name in call.params
  {
    var raw := call.params[spec.name];
    match spec
    case TextParam(_, _) => if raw.Text? then Ok(raw) else Err(NotAString)
    case NumberParam(_, _, min, max) =>
      if !raw.Number? || !raw.num.Finite? then Err(NotANumber)
      else if min.Some? && Less(raw.num, min.value) then Err(BelowMin)
      else if max.Some? && Less(max.value, raw.num) then Err(AboveMax)
      else Ok(raw)
    case ImageParam(name, _) => if name in call.uploads then Ok(Text(call.uploads[name])) else Err(NoUpload)
  }

  function ApplySpec(g: Graph, spec: ParamSpec, call: Call, draw: nat): Result<Graph> {
    if spec.SeedParam? then BindAll(g, spec.targets, Seed(call, draw))
    else if spec.name !in call.params then Ok(g)
    else
      var v := Checked(spec, call);
      if v.Err? then Err(v.reason) else Bind(g, spec.target, v.value)
  }

  /** How many seeds, and so how many draws, come before the `k`-th spec. */
  function Draws(specs: seq<ParamSpec>, k: nat): nat
    requires k <= |specs|
  {
    if k == 0 then 0 else Draws(specs, k - 1) + if specs[k - 1].SeedParam? then 1 else 0
  }

  /** The graph after the first `k` specs. */
  function ApplySpecs(g: Graph, specs: seq<ParamSpec>, call: Call, k: nat): Result<Graph>
    requires k <= |specs|
  {
    if k == 0 then Ok(g)
    else
      var r := ApplySpecs(g, specs, call, k - 1);
      if r.Err? then r else ApplySpec(r.value, specs[k - 1], call, Draws(specs, k - 1))
  }

  predicate OnlyDeclared(specs: seq<ParamSpec>, call: Call) {
    forall name :: name in call.params ==> Declared(specs, name)
  }

  function Reconstruct(tpl: Template, call: Call): Result<Graph> {
    if !OnlyDeclared(tpl.params, call) then Err(UnknownParam)
    else ApplySpecs(tpl.graph, tpl.params, call, |tpl.params|)
  }

  // ---- What a rebuilt graph is ----

  predicate Writes(spec: ParamSpec, call: Call, t: Target) {
    if spec.SeedParam? then t in spec.targets else spec.name in call.params && spec.target == t
  }

  /** `k` is the last of the first `n` specs to write `t`. */
  predicate LastWriter(specs: seq<ParamSpec>, call: Call, t: Target, n: nat, k: nat) {
    && k < n <= |specs| && Writes(specs[k], call, t)
    && forall j :: k < j < n ==> !Writes(specs[j], call, t)
  }

  predicate Untouched(specs: seq<ParamSpec>, call: Call, t: Target, n: nat) {
    n <= |specs| && forall j :: 0 <= j < n ==> !Writes(specs[j], call, t)
  }

  /** What the `k`-th spec puts at its targets. */
  function Written(specs: seq<ParamSpec>, call: Call, k: nat): Option<Value>
    requires k < |specs|
  {
    if specs[k].SeedParam? then Some(Seed(call, Draws(specs, k)))
    else if specs[k].name !in call.params then None
    else if Checked(specs[k], call).Ok? then Some(Checked(specs[k], call).value)
    else None
  }

  /** The same nodes, of the same classes, with inputs added or replaced but never removed. */
  predicate SameShape(g: Graph, h: Graph) {
    && h.Keys == g.Keys
    && forall n :: n in g ==> h[n].classType == g[n].classType && g[n].inputs.Keys <= h[n].inputs.Keys
  }

  function At(g: Graph, t: Target): Option<Value> {
    if t.node in g && t.input in g[t.node].inputs then Some(g[t.node].inputs[t.input]) else None
  }

  lemma {:induction false} BindAt(g: Graph, t: Target, v: Value)
    requires Bind(g, t, v).Ok?
    ensures SameShape(g, Bind(g, t, v).value)
    ensures forall u :: At(Bind(g, t, v).value, u) == if u == t then Some(v) else At(g, u)
  {
  }

  lemma {:induction false} BindAllAt(g: Graph, ts: seq<Target>, v: Value)
    ensures BindAll(g, ts, v).Ok? <==> forall t :: t in ts ==> t.node in g
    ensures BindAll(g, ts, v).Ok? ==> SameShape(g, BindAll(g, ts, v).value)
    ensures BindAll(g, ts, v).Ok? ==>
      forall u :: At(BindAll(g, ts, v).value, u) == if u in ts then Some(v) else At(g, u)
  {
    if ts != [] {
      assert ts == [ts[0]] + ts[1..];
      var r := Bind(g, ts[0], v);
      if r.Ok? {
        BindAt(g, ts[0], v);
        BindAllAt(r.value, ts[1..], v);
      }
    }
  }

  lemma {:induction false} ApplySpecAt(g: Graph, spec: ParamSpec, call: Call, draw: nat, t: Target)
    requires ApplySpec(g, spec, call, draw).Ok?
    ensures var h := ApplySpec(g, spec, call, draw).value;
      && SameShape(g, h)
      && At(h, t) ==
         if !Writes(spec, call, t) then At(g, t)
         else if spec.SeedParam? then Some(Seed(call, draw))
         else Some(Checked(spec, call).value)
  {
    if spec.SeedParam? {
      BindAllAt(g, spec.targets, Seed(call, draw));
    } else if spec.name in call.params {
      BindAt(g, spec.target, Checked(spec, call).value);
    }
  }

  /**
  A rebuilt graph has the template's nodes and classes, holds at each target the value of the last
  spec that wrote it, and is otherwise the stored graph.
  */
  lemma {:induction false} GraphFrame(g: Graph, specs: seq<ParamSpec>, call: Call, n: nat)
    requires n <= |specs| && ApplySpecs(g, specs, call, n).Ok?
    ensures var h := ApplySpecs(g, specs, call, n).value;
      && SameShape(g, h)
      && (forall t, k: nat :: LastWriter(specs, call, t, n, k) ==> At(h, t) == Written(specs, call, k) && At(h, t).Some?)
      && (forall t :: Untouched(specs, call, t, n) ==> At(h, t) == At(g, t))
  {
    if n > 0 {
      GraphFrame(g, specs, call, n - 1);
      var mid := ApplySpecs(g, specs, call, n - 1).value;
      var h := ApplySpecs(g, specs, call, n).value;
      var draw := Draws(specs, n - 1);
      ApplySpecAt(mid, specs[n - 1], call, draw, Target("", ""));
      forall t, k: nat | LastWriter(specs, call, t, n, k)
        ensures At(h, t) == Written(specs, call, k) && At(h, t).Some?
      {
        ApplySpecAt(mid, specs[n - 1], call, draw, t);
        if k < n - 1 {
          assert LastWriter(specs, call, t, n - 1, k);
        }
      }
      forall t | Untouched(specs, call, t, n) ensures At(h, t) == At(g, t) {
        ApplySpecAt(mid, specs[n - 1], call, draw, t);
        assert Untouched(specs, call, t, n - 1);
      }
    }
  }

  // ---- When a call is refused ----

  predicate TargetsExist(g: Graph, spec: ParamSpec) {
    if spec.SeedParam? then forall t :: t in spec.targets ==> t.node in g else spec.target.node in g
  }

  /** The supplied value has the declared type and range, and an image has its upload. */
  predicate WellTyped(spec: ParamSpec, call: Call) {
    !spec.SeedParam? && spec.name in call.params ==>
      match spec
      case TextParam(name, _) => call.params[name].Text?
      case NumberParam(name, _, min, max) =>
        && call.params[name].Number? && call.params[name].num.Finite?
        && (min.Some? ==> !Less(call.params[name].num, min.value))
        && (max.Some? ==> !Less(max.value, call.params[name].num))
      case ImageParam(name, _) => name in call.uploads
  }

  predicate SpecServes(g: Graph, spec: ParamSpec, call: Call) {
    WellTyped(spec, call) && (spec.SeedParam? || spec.name in call.params ==> TargetsExist(g, spec))
  }

  lemma {:induction false} SpecsServe(g: Graph, specs: seq<ParamSpec>, call: Call, n: nat)
    requires n <= |specs|
    ensures ApplySpecs(g, specs, call, n).Ok? <==> forall i :: 0 <= i < n ==> SpecServes(g, specs[i], call)
  {
    if n > 0 {
      SpecsServe(g, specs, call, n - 1);
      if ApplySpecs(g, specs, call, n - 1).Ok? {
        GraphFrame(g, specs, call, n - 1);
        var mid := ApplySpecs(g, specs, call, n - 1).value;
        if specs[n - 1].SeedParam? {
          BindAllAt(mid, specs[n - 1].targets, Seed(call, Draws(specs, n - 1)));
        }
        assert ApplySpec(mid, specs[n - 1], call, Draws(specs, n - 1)).Ok? <==> SpecServes(g, specs[n - 1], call);
      }
    }
  }

  /** A call succeeds exactly when it names declared params only and every spec it triggers can be served. */
  lemma {:induction false} ReconstructSucceedsExactly(tpl: Template, call: Call)
    ensures Reconstruct(tpl, call).Ok? <==>
      OnlyDeclared(tpl.params, call) && forall i :: 0 <= i < |tpl.params| ==> SpecServes(tpl.graph, tpl.params[i], call)
  {
    SpecsServe(tpl.graph, tpl.params, call, |tpl.params|);
  }

  // ---- The source's own form ----

  /** A node as the source holds it: an object whose inputs are written in place. */
  class GraphNode {
    const classType: string
    var inputs: map<string, Value>

    constructor (classType: string, inputs: map<string, Value>)
      ensures this.classType == classType && this.inputs == inputs
    {
      this.classType := classType;
      this.inputs := inputs;
    }
  }

  type NodeMap = map<string, GraphNode>

  ghost function View(g: NodeMap): Graph
    reads g.Values
  {
    map n | n in g :: Node(g[n].classType, g[n].inputs)
  }

  /** Different ids hold different objects, as in anything parsed from JSON. */
  ghost predicate Unshared(g: NodeMap) {
    forall m, n :: m in g && n in g && m != n ==> g[m] != g[n]
  }

  method CloneNode(node: GraphNode) returns (copy: GraphNode)
    ensures fresh(copy) && copy.classType == node.classType && copy.inputs == node.inputs
  {
    copy := new GraphNode(node.classType, node.inputs);
  }

  method CloneGraph(g: NodeMap) returns (c: NodeMap)
    ensures c.Keys == g.Keys && Unshared(c)
    ensures forall n :: n in c ==> fresh(c[n])
    ensures View(c) == View(g)
  {
    c := map[];
    var todo := g.Keys;
    while todo != {}
      invariant todo <= g.Keys && (forall n :: n in c <==> n in g && n !in todo) && Unshared(c)
      invariant forall n :: n in c ==> fresh(c[n]) && c[n].classType == g[n].classType && c[n].inputs == g[n].inputs
      decreases todo
    {
      var n :| n in todo;
      var node := CloneNode(g[n]);
      assert forall m :: m in c ==> c[m] != node;
      c := c[n := node];
      todo := todo - {n};
    }
    assert c.Keys == g.Keys;
  }

  /** `r.inputs[t.input] = value`, or the refusal when the node is missing. */
  method Assign(g: NodeMap, t: Target, v: Value) returns (ok: bool)
    requires Unshared(g)
    modifies g.Values
    ensures ok == (t.node in g)
    ensures ok ==> Ok(View(g)) == Bind(old(View(g)), t, v)
  {
    if t.node !in g { return false; }
    var node := g[t.node];
    node.inputs := node.inputs[t.input := v];
    assert View(g) == old(View(g))[t.node := Node(node.classType, node.inputs)];
    return true;
  }

  method AssignAll(g: NodeMap, ts: seq<Target>, v: Value) returns (ok: bool)
    requires Unshared(g)
    modifies g.Values
    ensures ok == BindAll(old(View(g)), ts, v).Ok?
    ensures ok ==> Ok(View(g)) == BindAll(old(View(g)), ts, v)
  {
    var i := 0;
    while i < |ts|
      invariant 0 <= i <= |ts|
      invariant BindAll(View(g), ts[i..], v) == BindAll(old(View(g)), ts, v)
    {
      assert ts[i..][1..] == ts[i + 1..];
      ok := Assign(g, ts[i], v);
      if !ok { return; }
      i := i + 1;
    }
    ok := true;
  }

  /** The names a spec declares, as the source's `specByName`. */
  method SpecNames(specs: seq<ParamSpec>) returns (specByName: map<string, ParamSpec>)
    ensures forall name :: name in specByName <==> Declared(specs, name)
  {
    specByName := map[];
    for i := 0 to |specs|
      invariant forall name :: name in specByName <==> Declared(specs[..i], name)
    {
      assert specs[..i + 1] == specs[..i] + [specs[i]];
      forall name ensures Declared(specs[..i + 1], name) <==> Declared(specs[..i], name) || specs[i].name == name {
        if Declared(specs[..i], name) {
          var j :| 0 <= j < i && specs[..i][j].name == name;
          assert specs[..i + 1][j].name == name;
        }
        if specs[i].name == name {
          assert specs[..i + 1][i].name == name;
        }
      }
      specByName := specByName[specs[i].name := specs[i]];
    }
    assert specs[..|specs|] == specs;
  }

  lemma {:induction false} ErrStays(g: Graph, specs: seq<ParamSpec>, call: Call, k: nat, n: nat)
    requires k <= n <= |specs| && ApplySpecs(g, specs, call, k).Err?
    ensures ApplySpecs(g, specs, call, n) == ApplySpecs(g, specs, call, k)
  {
    if k < n {
      ErrStays(g, specs, call, k, n - 1);
    }
  }

  lemma {:induction false} BindAllErr(g: Graph, ts: seq<Target>, v: Value)
    ensures BindAll(g, ts, v).Err? ==> BindAll(g, ts, v) == Err(MissingNode)
  {
    if ts != [] && Bind(g, ts[0], v).Ok? {
      BindAllErr(Bind(g, ts[0], v).value, ts[1..], v);
    }
  }

  /** The body of its loop: one spec written into the clone, or the reason it cannot be. */
  method ApplyOne(graph: NodeMap, spec: ParamSpec, call: Call, draw: nat) returns (reason: Option<Reason>)
    requires Unshared(graph)
    modifies graph.Values
    ensures ApplySpec(old(View(graph)), spec, call, draw) == if reason.Some? then Err(reason.value) else Ok(View(graph))
  {
    reason := None;
    if spec.SeedParam? {
      var ok := AssignAll(graph, spec.targets, Seed(call, draw));
      BindAllErr(old(View(graph)), spec.targets, Seed(call, draw));
      if !ok { reason := Some(MissingNode); }
    } else if spec.name in call.params {
      var v := Checked(spec, call);
      if v.Err? { return Some(v.reason); }
      var ok := Assign(graph, spec.target, v.value);
      if !ok { reason := Some(MissingNode); }
    }
  }

  /** The loop over the specs, up to the first that cannot be written. */
  method ApplyEach(graph: NodeMap, specs: seq<ParamSpec>, call: Call) returns (reason: Option<Reason>)
    requires Unshared(graph)
    modifies graph.Values
    ensures ApplySpecs(old(View(graph)), specs, call, |specs|) ==
      if reason.Some? then Err(reason.value) else Ok(View(graph))
  {
    ghost var g0 := View(graph);
    var draw := 0;
    for i := 0 to |specs|
      invariant draw == Draws(specs, i)
      invariant ApplySpecs(g0, specs, call, i) == Ok(View(graph))
    {
      reason := ApplyOne(graph, specs[i], call, draw);
      if reason.Some? {
        ErrStays(g0, specs, call, i + 1, |specs|);
        return;
      }
      if specs[i].SeedParam? {
        draw := draw + 1;
      }
    }
    reason := None;
  }

  /** The source's `reconstructGraph`: it modifies nothing that existed before the call. */
  method ReconstructGraph(stored: NodeMap, specs: seq<ParamSpec>, call: Call) returns (r: Result<NodeMap>)
    ensures r.Ok? ==> forall n :: n in r.value ==> fresh(r.value[n])
    ensures View(stored) == old(View(stored))
    ensures var spec := if OnlyDeclared(specs, call) then ApplySpecs(View(stored), specs, call, |specs|) else Err(UnknownParam);
      if r.Ok? then Ok(View(r.value)) == spec else spec == Err(r.reason)
  {
    var graph := CloneGraph(stored);
    var specByName := SpecNames(specs);
    if exists name :: name in call.params && name !in specByName {
      return Err(UnknownParam);
    }
    var reason := ApplyEach(graph, specs, call);
    r := if reason.Some? then Err(reason.value) else Ok(graph);
  }
}
