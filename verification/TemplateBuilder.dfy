/**
The console's validation of a template draft (apps/control-plane/src/lib/template-builder.ts and
template-schema.ts): shape check, build, and a dry run that must certify every later call.
*/
module TemplateBuilder {
  import opened Prelude
  import opened Workflow

  /** The editor's draft. `graph` is what `parseGraphText` makes of the pasted text. */
  datatype Draft = Draft(id: seq<CodeUnit>, graph: Option<Graph>, params: seq<ParamSpec>, cost: Num)

  datatype Refusal = BadShape | BadGraph | DuplicateName(name: string) | DryRun(reason: Reason)

  datatype Build = Built(tpl: Template) | Refused(why: Refusal)

  predicate NonBlank(t: Target) {
    t.node != "" && t.input != ""
  }

  /** What zod's `number()` admits: anything but NaN. */
  predicate IsNumber(n: Num) {
    !n.NaN?
  }

  predicate SpecShape(spec: ParamSpec) {
    && spec.name != ""
    && match spec
       case SeedParam(_, targets) => targets != [] && forall t :: t in targets ==> NonBlank(t)
       case NumberParam(_, target, min, max) =>
         NonBlank(target) && (min.Some? ==> IsNumber(min.value)) && (max.Some? ==> IsNumber(max.value))
       case _ => NonBlank(spec.target)
  }

  predicate DraftShape(d: Draft) {
    && d.id != []
    && (forall i :: 0 <= i < |d.params| ==> SpecShape(d.params[i]))
    && IsNumber(d.cost) && !Less(d.cost, Finite(0.0))
  }

  predicate Repeats(specs: seq<ParamSpec>, i: nat) {
    i < |specs| && exists j :: 0 <= j < i && specs[j].name == specs[i].name
  }

  /** `names.find((n, i) => names.indexOf(n) !== i)`. */
  function FindDuplicate(specs: seq<ParamSpec>, i: nat): (r: Option<string>)
    requires i <= |specs|
    ensures r.None? <==> forall k :: i <= k < |specs| ==> !Repeats(specs, k)
    ensures r.Some? ==> exists k :: i <= k < |specs| && Repeats(specs, k) && specs[k].name == r.value
    decreases |specs| - i
  {
    if i == |specs| then None
    else if Repeats(specs, i) then Some(specs[i].name)
    else FindDuplicate(specs, i + 1)
  }

  function BuildTemplate(d: Draft): Build {
    if d.graph.None? then Refused(BadGraph)
    else
      var dup := FindDuplicate(d.params, 0);
      // The source tests the name itself, so a repeated empty name would pass.
      if dup.Some? && dup.value != "" then Refused(DuplicateName(dup.value))
      else Built(Template(d.id, d.graph.value, d.params, d.cost))
  }

  /** The value `sampleParam` supplies. */
  function Sample(spec: ParamSpec): Value
    requires !spec.SeedParam?
  {
    match spec
    case NumberParam(_, _, min, _) => Number(if min.Some? then min.value else Finite(0.0))
    case _ => Text("sample")
  }

  /** `sampleParam` over the first `n` specs: later ones overwrite earlier ones of the same name. */
  function SampleParams(specs: seq<ParamSpec>, n: nat): map<string, Value>
    requires n <= |specs|
  {
    if n == 0 then map[]
    else
      var m := SampleParams(specs, n - 1);
      if specs[n - 1].SeedParam? then m else m[specs[n - 1].name := Sample(specs[n - 1])]
  }

  function SampleUploads(specs: seq<ParamSpec>, n: nat): map<string, string>
    requires n <= |specs|
  {
    if n == 0 then map[]
    else
      var m := SampleUploads(specs, n - 1);
      if specs[n - 1].ImageParam? then m[specs[n - 1].name := "dry-run.png"] else m
  }

  function DryCall(specs: seq<ParamSpec>): Call {
    Call(SampleParams(specs, |specs|), SampleUploads(specs, |specs|), _ => 0.5)
  }

  function ValidateDraft(d: Draft): Build {
    if !DraftShape(d) then Refused(BadShape)
    else
      var built := BuildTemplate(d);
      if built.Refused? then built
      else
        var dry := Reconstruct(built.tpl, DryCall(built.tpl.params));
        if dry.Err? then Refused(DryRun(dry.reason)) else built
  }

  // ---- What acceptance certifies ----

  predicate UniqueNames(specs: seq<ParamSpec>) {
    forall i, j :: 0 <= i < j < |specs| ==> specs[i].name != specs[j].name
  }

  /** The range admits the number the dry run tries: `min`, or 0 without one. */
  predicate SampleFits(spec: ParamSpec) {
    spec.NumberParam? ==>
      var n := Sample(spec).num;
      n.Finite? && (spec.max.Some? ==> !Less(spec.max.value, n)) && (spec.min.Some? ==> !Less(n, spec.min.value))
  }

  lemma {:induction false} SampleKeys(specs: seq<ParamSpec>, n: nat, name: string)
    requires n <= |specs|
    ensures name in SampleParams(specs, n) <==> exists i :: 0 <= i < n && !specs[i].SeedParam? && specs[i].name == name
    ensures name in SampleUploads(specs, n) <==> exists i :: 0 <= i < n && specs[i].ImageParam? && specs[i].name == name
  {
    if n > 0 {
      SampleKeys(specs, n - 1, name);
    }
  }

  lemma {:induction false} SampleOf(specs: seq<ParamSpec>, n: nat, i: nat)
    requires i < n <= |specs| && UniqueNames(specs) && !specs[i].SeedParam?
    ensures specs[i].name in SampleParams(specs, n) && SampleParams(specs, n)[specs[i].name] == Sample(specs[i])
  {
    if i < n - 1 {
      SampleOf(specs, n - 1, i);
    }
  }

  /** The dry run accepts exactly the templates whose targets all exist and whose ranges admit the sample. */
  lemma {:induction false} DryRunExactly(tpl: Template)
    requires UniqueNames(tpl.params)
    ensures Reconstruct(tpl, DryCall(tpl.params)).Ok? <==>
      forall i :: 0 <= i < |tpl.params| ==> TargetsExist(tpl.graph, tpl.params[i]) && SampleFits(tpl.params[i])
  {
    var specs, call := tpl.params, DryCall(tpl.params);
    forall name | name in call.params ensures Declared(specs, name) {
      SampleKeys(specs, |specs|, name);
    }
    forall i | 0 <= i < |specs|
      ensures SpecServes(tpl.graph, specs[i], call) <==> TargetsExist(tpl.graph, specs[i]) && SampleFits(specs[i])
    {
      SampleKeys(specs, |specs|, specs[i].name);
      if !specs[i].SeedParam? {
        SampleOf(specs, |specs|, i);
      }
    }
    ReconstructSucceedsExactly(tpl, call);
  }

  lemma {:induction false} BuiltNamesUnique(d: Draft)
    requires DraftShape(d) && BuildTemplate(d).Built?
    ensures UniqueNames(d.params)
  {
    forall i, j | 0 <= i < j < |d.params| ensures d.params[i].name != d.params[j].name {
      if d.params[i].name == d.params[j].name {
        assert Repeats(d.params, j);
      }
    }
  }

  lemma {:induction false} NeverMissing(g: Graph, specs: seq<ParamSpec>, call: Call, n: nat)
    requires n <= |specs| && forall i :: 0 <= i < |specs| ==> TargetsExist(g, specs[i])
    ensures ApplySpecs(g, specs, call, n).Err? ==> ApplySpecs(g, specs, call, n).reason != MissingNode
  {
    if n > 0 {
      NeverMissing(g, specs, call, n - 1);
      if ApplySpecs(g, specs, call, n - 1).Ok? {
        GraphFrame(g, specs, call, n - 1);
        var mid := ApplySpecs(g, specs, call, n - 1).value;
        if specs[n - 1].SeedParam? {
          BindAllAt(mid, specs[n - 1].targets, Seed(call, Draws(specs, n - 1)));
        }
      }
    }
  }

  /**
  Once a draft is accepted, a call to the stored template succeeds exactly when it names declared
  params only and gives each the declared type and range (and an upload for each supplied image): no
  accepted template can ever fail on a missing node.
  */
  lemma {:induction false} DryRunCertifies(d: Draft, call: Call)
    requires ValidateDraft(d).Built?
    ensures var tpl := ValidateDraft(d).tpl;
      && (Reconstruct(tpl, call).Ok? <==>
            OnlyDeclared(tpl.params, call) && forall i :: 0 <= i < |tpl.params| ==> WellTyped(tpl.params[i], call))
      && (Reconstruct(tpl, call).Err? ==> Reconstruct(tpl, call).reason != MissingNode)
  {
    var tpl := ValidateDraft(d).tpl;
    BuiltNamesUnique(d);
    DryRunExactly(tpl);
    ReconstructSucceedsExactly(tpl, call);
    NeverMissing(tpl.graph, tpl.params, call, |tpl.params|);
  }

  /** Acceptance, spelled out: the draft's shape, a graph, distinct names, existing targets, satisfiable ranges. */
  lemma {:induction false} ValidateDraftExactly(d: Draft)
    ensures ValidateDraft(d).Built? <==>
      && DraftShape(d) && d.graph.Some? && UniqueNames(d.params)
      && forall i :: 0 <= i < |d.params| ==> TargetsExist(d.graph.value, d.params[i]) && SampleFits(d.params[i])
    ensures ValidateDraft(d).Built? ==> ValidateDraft(d).tpl == Template(d.id, d.graph.value, d.params, d.cost)
  {
    if DraftShape(d) && d.graph.Some? {
      if UniqueNames(d.params) {
        var r := FindDuplicate(d.params, 0);
        assert r.None?;
      }
      if BuildTemplate(d).Built? {
        BuiltNamesUnique(d);
        DryRunExactly(BuildTemplate(d).tpl);
      }
    }
  }
}
