/**
The MCP tools of a ComfyUI fence (packages/connectors/src/comfyui/mcp.ts): names that are safe,
bounded and free of collisions, the list the endpoint advertises, and the way back from a tool name
to a template. The list's validator is `toolDefProblems` of packages/connectors/src/mcp.ts.
*/
module McpTools {
  import opened Prelude
  import opened Text
  import opened Workflow

  type JsString = seq<CodeUnit>

  const MAX_NAME := 128
  const PREFIX := "run_"
  const JOB_RESULT_TOOL := "get_job_result"

  /** The most elements a JavaScript array can have (ECMA-262, section 10.4.2). */
  const MAX_ARRAY_LENGTH := 0xFFFF_FFFF

  /** `[A-Za-z0-9_.-]` */
  predicate NameChar(c: char) {
    'A' <= c <= 'Z' || 'a' <= c <= 'z' || '0' <= c <= '9' || c == '_' || c == '.' || c == '-'
  }

  /** `MCP_TOOL_NAME` */
  predicate ValidName(s: string) {
    1 <= |s| <= MAX_NAME && forall i :: 0 <= i < |s| ==> NameChar(s[i])
  }

  function SafeChar(u: CodeUnit): char {
    if u < 128 && NameChar(u as char) then u as char else '_'
  }

  /** `s.slice(0, end)`: a negative end counts from the back. */
  function Slice(s: string, end: int): string {
    if end >= |s| then s else if end >= 0 then s[..end] else if |s| + end >= 0 then s[..|s| + end] else ""
  }

  function ToolName(id: JsString): string {
    var safe := if id == [] then "_" else seq(|id|, i requires 0 <= i < |id| => SafeChar(id[i]));
    Slice(PREFIX + safe, MAX_NAME)
  }

  function Suffix(n: nat): string {
    "_" + Decimal(n)
  }

  /** The name tried at the `n`-th collision. */
  function Candidate(base: string, n: nat): string {
    Slice(base, MAX_NAME - |Suffix(n)|) + Suffix(n)
  }

  // ---- The suffix search terminates ----

  lemma {:induction false} LastUnderscore(s: string, a: nat, n: nat)
    requires a <= |s| && s[a..] == Suffix(n)
    ensures a < |s| && s[a] == '_'
    ensures forall i :: a < i < |s| ==> s[i] != '_'
  {
    DecimalChars(n);
    assert s[a] == s[a..][0];
    forall i | a < i < |s| ensures s[i] != '_' {
      assert s[i] == s[a..][i - a] == Decimal(n)[i - a - 1];
    }
  }

  /** Whatever was cut off before them, different suffixes make different names. */
  lemma {:induction false} CandidateInjective(base: string, m: nat, n: nat)
    requires Candidate(base, m) == Candidate(base, n)
    ensures m == n
  {
    var s := Candidate(base, m);
    var a, b := |s| - |Suffix(m)|, |s| - |Suffix(n)|;
    LastUnderscore(s, a, m);
    LastUnderscore(s, b, n);
    assert Suffix(m)[1..] == Decimal(m) && Suffix(n)[1..] == Decimal(n);
    DecimalInjective(m, n);
  }

  ghost function Tried(base: string, n: nat): set<string>
    requires n >= 2
  {
    set k | 2 <= k < n :: Candidate(base, k)
  }

  lemma {:induction false} TriedSize(base: string, n: nat)
    requires n >= 2
    ensures |Tried(base, n)| == n - 2
  {
    if n > 2 {
      TriedSize(base, n - 1);
      assert Tried(base, n) == Tried(base, n - 1) + {Candidate(base, n - 1)};
      if Candidate(base, n - 1) in Tried(base, n - 1) {
        var k :| 2 <= k < n - 1 && Candidate(base, k) == Candidate(base, n - 1);
        CandidateInjective(base, k, n - 1);
      }
    }
  }

  lemma {:induction false} SearchBound(base: string, taken: set<string>, n: nat)
    requires n >= 2 && forall k :: 2 <= k < n ==> Candidate(base, k) in taken
    ensures n <= |taken| + 2
  {
    TriedSize(base, n);
    SubsetSize(Tried(base, n), taken);
  }

  /** The first free suffix from `n` on. */
  function FirstFree(base: string, taken: set<string>, n: nat): (k: nat)
    requires n >= 2 && forall j :: 2 <= j < n ==> Candidate(base, j) in taken
    ensures n <= k <= |taken| + 2 && Candidate(base, k) !in taken
    ensures forall j :: 2 <= j < k ==> Candidate(base, j) in taken
    decreases (SearchBound(base, taken, n); |taken| + 2 - n)
  {
    SearchBound(base, taken, n);
    if Candidate(base, n) !in taken then n else FirstFree(base, taken, n + 1)
  }

  // ---- Names for a list of templates ----

  datatype Entry = Entry(name: string, id: JsString)

  /** An insertion-ordered JavaScript Map from tool name to template id. */
  type Names = seq<Entry>

  function NameSet(names: Names): set<string> {
    set i | 0 <= i < |names| :: names[i].name
  }

  function IdSet(names: Names): set<JsString> {
    set i | 0 <= i < |names| :: names[i].id
  }

  lemma {:induction false} SetsGrow(names: Names, e: Entry)
    ensures NameSet(names + [e]) == NameSet(names) + {e.name}
    ensures IdSet(names + [e]) == IdSet(names) + {e.id}
  {
    var more := names + [e];
    assert more[|names|] == e && forall i :: 0 <= i < |names| ==> more[i] == names[i];
  }

  function NameFor(taken: set<string>, id: JsString): string {
    var base := ToolName(id);
    if base !in taken then base else Candidate(base, FirstFree(base, taken, 2))
  }

  /** `comfyToolNames` over the ids, in order. */
  function ToolNames(ids: seq<JsString>): Names {
    if ids == [] then []
    else
      var names, id := ToolNames(ids[..|ids| - 1]), ids[|ids| - 1];
      if id in IdSet(names) then names else names + [Entry(NameFor(NameSet(names), id), id)]
  }

  /** The source's loops: a map being filled, a set of ids seen, and a counter for the suffix. */
  method ComfyToolNames(ids: seq<JsString>) returns (names: Names)
    ensures names == ToolNames(ids)
  {
    names := [];
    var seen: set<JsString> := {};
    for i := 0 to |ids|
      invariant names == ToolNames(ids[..i]) && seen == IdSet(names)
    {
      assert ids[..i + 1][..i] == ids[..i];
      var id := ids[i];
      if id !in seen {
        seen := seen + {id};
        var base, taken := ToolName(id), NameSet(names);
        var name := base;
        var n := 2;
        while name in taken
          invariant n >= 2 && forall j :: 2 <= j < n - 1 ==> Candidate(base, j) in taken
          invariant if n == 2 then name == base else base in taken && name == Candidate(base, n - 1)
          decreases |taken| + 3 - n
        {
          SearchBound(base, taken, n);
          name := Candidate(base, n);
          n := n + 1;
        }
        if n > 2 {
          ghost var k := FirstFree(base, taken, 2);
          assert k >= n - 1 && n - 1 >= k;
        }
        SetsGrow(names, Entry(name, id));
        names := names + [Entry(name, id)];
      }
    }
    assert ids[..|ids|] == ids;
  }

  // ---- What the names are ----

  predicate RunName(s: string) {
    ValidName(s) && PREFIX < s
  }

  function Distinct(ids: seq<JsString>): set<JsString> {
    set i | 0 <= i < |ids| :: ids[i]
  }

  predicate RunNames(names: Names) {
    forall i :: 0 <= i < |names| ==> RunName(names[i].name)
  }

  predicate Differ(names: Names) {
    forall i, j :: 0 <= i < j < |names| ==> names[i].name != names[j].name && names[i].id != names[j].id
  }

  /** Names that are safe to serve, and a bijection between them and the distinct ids. */
  predicate GoodNames(ids: seq<JsString>, names: Names) {
    RunNames(names) && Differ(names) && IdSet(names) == Distinct(ids)
  }

  lemma {:induction false} Append(names: Names, e: Entry)
    requires RunNames(names) && RunName(e.name)
    ensures RunNames(names + [e])
  {
  }

  lemma {:induction false} Members(names: Names)
    ensures forall i :: 0 <= i < |names| ==> names[i].name in NameSet(names) && names[i].id in IdSet(names)
  {
  }

  lemma {:induction false} AppendDiffer(names: Names, e: Entry)
    requires Differ(names) && e.name !in NameSet(names) && e.id !in IdSet(names)
    ensures Differ(names + [e])
  {
    Members(names);
  }

  lemma {:induction false} ToolNameIsRunName(id: JsString)
    ensures RunName(ToolName(id))
  {
    var safe := if id == [] then "_" else seq(|id|, i requires 0 <= i < |id| => SafeChar(id[i]));
    assert forall i :: 0 <= i < |safe| ==> NameChar(safe[i]);
    assert |PREFIX + safe| >= 5;
  }

  lemma {:induction false} CandidateIsRunName(base: string, n: nat)
    requires RunName(base) && n <= MAX_ARRAY_LENGTH + 2
    ensures RunName(Candidate(base, n))
  {
    assert Pow10(10) == 10_000_000_000 by {
      assert Pow10(5) == 100_000;
    }
    DecimalLength(n, 10);
    DecimalChars(n);
    var name := Candidate(base, n);
    assert |PREFIX| == 4;
  }

  lemma {:induction false} NameSetSize(names: Names)
    ensures |NameSet(names)| <= |names|
  {
    if names != [] {
      var front := names[..|names| - 1];
      NameSetSize(front);
      assert names == front + [names[|names| - 1]];
      SetsGrow(front, names[|names| - 1]);
    }
  }

  lemma {:induction false} NewNameIsGood(names: Names, id: JsString)
    requires |names| <= MAX_ARRAY_LENGTH
    ensures RunName(NameFor(NameSet(names), id)) && NameFor(NameSet(names), id) !in NameSet(names)
  {
    NameSetSize(names);
    ToolNameIsRunName(id);
    if ToolName(id) in NameSet(names) {
      CandidateIsRunName(ToolName(id), FirstFree(ToolName(id), NameSet(names), 2));
    }
  }

  lemma {:induction false} DistinctGrows(ids: seq<JsString>, id: JsString)
    ensures Distinct(ids + [id]) == Distinct(ids) + {id}
  {
    var more := ids + [id];
    assert more[|ids|] == id && forall i :: 0 <= i < |ids| ==> more[i] == ids[i];
  }

  lemma {:induction false} ToolNamesGood(ids: seq<JsString>)
    requires |ids| <= MAX_ARRAY_LENGTH
    ensures GoodNames(ids, ToolNames(ids)) && |ToolNames(ids)| <= |ids|
  {
    if ids != [] {
      var front, id := ids[..|ids| - 1], ids[|ids| - 1];
      var names := ToolNames(front);
      ToolNamesGood(front);
      assert ids == front + [id];
      DistinctGrows(front, id);
      if id !in IdSet(names) {
        NewNameIsGood(names, id);
        var e := Entry(NameFor(NameSet(names), id), id);
        SetsGrow(names, e);
        Append(names, e);
        AppendDiffer(names, e);
      }
    }
  }

  /** Adding templates after the others renames none of them. */
  lemma {:induction false} NamesAreStable(ids: seq<JsString>, k: nat)
    requires k <= |ids|
    ensures ToolNames(ids[..k]) <= ToolNames(ids)
  {
    if k < |ids| {
      assert ids[..|ids| - 1][..k] == ids[..k];
      NamesAreStable(ids[..|ids| - 1], k);
    } else {
      assert ids[..k] == ids;
    }
  }

  // ---- Tool definitions and their validator ----

  datatype Property = TextProperty | NumberProperty(min: Option<Num>, max: Option<Num>) | ImageProperty | JobIdProperty

  datatype InputSchema =
    InputSchema(schemaType: string, properties: map<string, Property>, required: seq<string>, additional: Option<bool>)

  datatype ToolDef = ToolDef(name: string, description: JsString, inputSchema: InputSchema)

  datatype ProblemKind =
    | InvalidName | DuplicateName | Unsorted | EmptyDescription | NotAnObject | Additional | Undeclared(name: string)

  /** `index` is the tool's position in the list. */
  datatype Problem = Problem(index: nat, kind: ProblemKind)

  /** What `trim()` removes (ECMA-262, sections 12.2 and 12.3). */
  predicate WhiteSpace(u: CodeUnit) {
    || 9 <= u <= 13 || u == 0x20 || u == 0xA0 || u == 0x1680 || 0x2000 <= u <= 0x200A
    || u == 0x2028 || u == 0x2029 || u == 0x202F || u == 0x205F || u == 0x3000 || u == 0xFEFF
  }

  predicate Blank(s: JsString) {
    forall i :: 0 <= i < |s| ==> WhiteSpace(s[i])
  }

  function UndeclaredProblems(i: nat, schema: InputSchema, k: nat): seq<Problem>
    requires k <= |schema.required|
  {
    if k == 0 then []
    else
      UndeclaredProblems(i, schema, k - 1) +
      if schema.required[k - 1] in schema.properties then [] else [Problem(i, Undeclared(schema.required[k - 1]))]
  }

  function SchemaProblems(i: nat, schema: InputSchema): seq<Problem> {
    if schema.schemaType != "object" then [Problem(i, NotAnObject)]
    else
      (if schema.additional != Some(false) then [Problem(i, Additional)] else [])
      + UndeclaredProblems(i, schema, |schema.required|)
  }

  /** The problems the loop reports at the `i`-th definition, `seen` being the names before it. */
  function ProblemsAt(defs: seq<ToolDef>, i: nat, seen: set<string>): seq<Problem>
    requires i < |defs|
  {
    var d := defs[i];
    (if ValidName(d.name) then [] else [Problem(i, InvalidName)])
    + (if d.name in seen then [Problem(i, DuplicateName)]
       else if i > 0 && !Before(defs[i - 1].name, d.name) then [Problem(i, Unsorted)]
       else [])
    + (if Blank(d.description) then [Problem(i, EmptyDescription)] else [])
    + SchemaProblems(i, d.inputSchema)
  }

  function Seen(defs: seq<ToolDef>, n: nat): set<string>
    requires n <= |defs|
  {
    set i | 0 <= i < n :: defs[i].name
  }

  function ProblemsUpTo(defs: seq<ToolDef>, n: nat): seq<Problem>
    requires n <= |defs|
  {
    if n == 0 then [] else ProblemsUpTo(defs, n - 1) + ProblemsAt(defs, n - 1, Seen(defs, n - 1))
  }

  /** What is wrong with a list of tools. */
  function AllProblems(defs: seq<ToolDef>): seq<Problem> {
    ProblemsUpTo(defs, |defs|)
  }

  lemma {:induction false} SeenNext(defs: seq<ToolDef>, i: nat)
    requires i < |defs|
    ensures Seen(defs, i + 1) == Seen(defs, i) + {defs[i].name}
  {
  }

  /** `toolDefProblems`, as the source runs it. */
  method ToolDefProblems(defs: seq<ToolDef>) returns (problems: seq<Problem>)
    ensures problems == AllProblems(defs)
  {
    problems := [];
    var seen := {};
    for i := 0 to |defs|
      invariant problems == ProblemsUpTo(defs, i) && seen == Seen(defs, i)
    {
      problems := problems + ProblemsAt(defs, i, seen);
      SeenNext(defs, i);
      seen := seen + {defs[i].name};
    }
  }

  /** What a list of tools must be, without the loop. */
  predicate ValidDef(d: ToolDef) {
    && ValidName(d.name) && !Blank(d.description)
    && d.inputSchema.schemaType == "object" && d.inputSchema.additional == Some(false)
    && forall k :: 0 <= k < |d.inputSchema.required| ==> d.inputSchema.required[k] in d.inputSchema.properties
  }

  /** The first `n` definitions are in strictly increasing order of name. */
  predicate StrictlySorted(defs: seq<ToolDef>, n: nat) {
    n <= |defs| && forall i, j :: 0 <= i < j < n ==> Before(defs[i].name, defs[j].name)
  }

  lemma {:induction false} UndeclaredExactly(i: nat, schema: InputSchema, k: nat)
    requires k <= |schema.required|
    ensures UndeclaredProblems(i, schema, k) == [] <==> forall j :: 0 <= j < k ==> schema.required[j] in schema.properties
  {
    if k > 0 {
      UndeclaredExactly(i, schema, k - 1);
    }
  }

  /** Given what comes before, comparing with the neighbour and with the names seen is enough. */
  lemma {:induction false} OrderExactly(defs: seq<ToolDef>, n: nat)
    requires n < |defs| && StrictlySorted(defs, n)
    ensures StrictlySorted(defs, n + 1) <==>
      defs[n].name !in Seen(defs, n) && (n > 0 ==> Before(defs[n - 1].name, defs[n].name))
  {
    BeforeIrreflexive(defs[n].name);
    if n > 0 && Before(defs[n - 1].name, defs[n].name) {
      forall i | 0 <= i < n - 1 ensures Before(defs[i].name, defs[n].name) {
        BeforeTransitive(defs[i].name, defs[n - 1].name, defs[n].name);
      }
    }
  }

  /** Nothing is wrong with the `n`-th definition after the ones before it. */
  predicate GoodAt(defs: seq<ToolDef>, n: nat)
    requires n < |defs|
  {
    ValidDef(defs[n]) && defs[n].name !in Seen(defs, n) && (n > 0 ==> Before(defs[n - 1].name, defs[n].name))
  }

  predicate GoodEach(defs: seq<ToolDef>, n: nat)
    requires n <= |defs|
  {
    n == 0 || (GoodEach(defs, n - 1) && GoodAt(defs, n - 1))
  }

  lemma {:induction false} SchemaExactly(i: nat, schema: InputSchema)
    ensures SchemaProblems(i, schema) == [] <==>
      && schema.schemaType == "object" && schema.additional == Some(false)
      && forall k :: 0 <= k < |schema.required| ==> schema.required[k] in schema.properties
  {
    UndeclaredExactly(i, schema, |schema.required|);
  }

  lemma {:induction false} ProblemsAtExactly(defs: seq<ToolDef>, i: nat)
    requires i < |defs|
    ensures ProblemsAt(defs, i, Seen(defs, i)) == [] <==> GoodAt(defs, i)
  {
    SchemaExactly(i, defs[i].inputSchema);
  }

  predicate Silent(defs: seq<ToolDef>, n: nat)
    requires n <= |defs|
  {
    |ProblemsUpTo(defs, n)| == 0
  }

  lemma {:induction false} SilentStep(defs: seq<ToolDef>, n: nat)
    requires n < |defs|
    ensures Silent(defs, n + 1) == (Silent(defs, n) && GoodAt(defs, n))
  {
    ProblemsAtExactly(defs, n);
    var a, b := ProblemsUpTo(defs, n), ProblemsAt(defs, n, Seen(defs, n));
    assert ProblemsUpTo(defs, n + 1) == a + b;
    assert |a + b| == |a| + |b|;
  }

  lemma {:induction false} SilentNext(defs: seq<ToolDef>, n: nat)
    requires n < |defs| && Silent(defs, n) == GoodEach(defs, n)
    ensures Silent(defs, n + 1) == GoodEach(defs, n + 1)
  {
    SilentStep(defs, n);
    assert GoodEach(defs, n + 1) == (GoodEach(defs, n) && GoodAt(defs, n));
  }

  lemma {:induction false} SilentExactly(defs: seq<ToolDef>, n: nat)
    requires n <= |defs|
    ensures Silent(defs, n) == GoodEach(defs, n)
  {
    assert Silent(defs, 0) == GoodEach(defs, 0);
    for m := 0 to n
      invariant Silent(defs, m) == GoodEach(defs, m)
    {
      SilentNext(defs, m);
    }
  }

  /** What `toolDefProblems` is there to ensure of the first `n` definitions. */
  predicate GoodList(defs: seq<ToolDef>, n: nat)
    requires n <= |defs|
  {
    (forall i :: 0 <= i < n ==> ValidDef(defs[i])) && StrictlySorted(defs, n)
  }

  lemma {:induction false} OneMoreDef(defs: seq<ToolDef>, n: nat)
    requires n < |defs|
    ensures GoodList(defs, n + 1) == (GoodList(defs, n) && GoodAt(defs, n))
  {
    assert StrictlySorted(defs, n + 1) ==> StrictlySorted(defs, n);
    if StrictlySorted(defs, n) {
      OrderExactly(defs, n);
    }
  }

  lemma {:induction false} ListExactly(defs: seq<ToolDef>, n: nat)
    requires n <= |defs|
    ensures GoodEach(defs, n) == GoodList(defs, n)
    decreases n
  {
    if n > 0 {
      ListExactly(defs, n - 1);
      OneMoreDef(defs, n - 1);
    }
  }

  /** The validator is silent exactly on lists of valid definitions in strictly increasing order of name. */
  lemma {:induction false} NoProblemsExactly(defs: seq<ToolDef>)
    ensures AllProblems(defs) == [] <==> GoodList(defs, |defs|)
  {
    SilentExactly(defs, |defs|);
    ListExactly(defs, |defs|);
  }

  // ---- The advertised list ----

  /** An ASCII literal as code units. */
  function Units(s: string): JsString {
    seq(|s|, i requires 0 <= i < |s| => if s[i] as int < 0x1_0000 then s[i] as int else 0xFFFD)
  }

  function PropertiesOf(specs: seq<ParamSpec>): map<string, Property> {
    if specs == [] then map[]
    else
      var m, spec := PropertiesOf(specs[..|specs| - 1]), specs[|specs| - 1];
      match spec
      case SeedParam(_, _) => m
      case TextParam(name, _) => m[name := TextProperty]
      case NumberParam(name, _, min, max) => m[name := NumberProperty(min, max)]
      case ImageParam(name, _) => m[name := ImageProperty]
  }

  /** The head of a run tool's description; the template's id follows. */
  const RUN_TEXT := "Run the operator-approved ComfyUI workflow "

  function RunTool(name: string, tpl: Template): ToolDef {
    ToolDef(
      name,
      Units(RUN_TEXT) + tpl.id + Units("."),
      InputSchema("object", PropertiesOf(tpl.params), [], Some(false)))
  }

  function JobResultTool(): ToolDef {
    ToolDef(
      JOB_RESULT_TOOL,
      Units("Fetch the status and outputs of a job."),
      InputSchema("object", map["job_id" := JobIdProperty], ["job_id"], Some(false)))
  }

  function Ids(templates: seq<Template>): seq<JsString> {
    seq(|templates|, i requires 0 <= i < |templates| => templates[i].id)
  }

  predicate FirstWith(templates: seq<Template>, k: nat, id: JsString) {
    k < |templates| && templates[k].id == id && forall j :: 0 <= j < k ==> templates[j].id != id
  }

  /** `templates.find((t) => t.id === id)`: what the submit flow runs. */
  function Find(templates: seq<Template>, id: JsString): (t: Template)
    requires id in Distinct(Ids(templates))
    ensures exists k: nat :: FirstWith(templates, k, id) && templates[k] == t
  {
    if templates[0].id == id then
      assert FirstWith(templates, 0, id);
      templates[0]
    else
      assert id in Distinct(Ids(templates[1..])) by {
        var k :| 0 <= k < |Ids(templates)| && Ids(templates)[k] == id;
        assert Ids(templates[1..])[k - 1] == id;
      }
      var t := Find(templates[1..], id);
      assert exists k: nat :: FirstWith(templates, k, id) && templates[k] == t by {
        var j: nat :| FirstWith(templates[1..], j, id) && templates[1..][j] == t;
        forall i | 0 <= i < j + 1 ensures templates[i].id != id {
          assert i > 0 ==> templates[i] == templates[1..][i - 1];
        }
        assert FirstWith(templates, j + 1, id);
      }
      t
  }

  function Insert(t: ToolDef, sorted: seq<ToolDef>): seq<ToolDef> {
    if sorted == [] then [t]
    else if Before(t.name, sorted[0].name) then [t] + sorted
    else [sorted[0]] + Insert(t, sorted[1..])
  }

  /** `tools.sort(byToolName)`. */
  function SortByName(tools: seq<ToolDef>): seq<ToolDef> {
    if tools == [] then [] else Insert(tools[|tools| - 1], SortByName(tools[..|tools| - 1]))
  }

  function RunTools(templates: seq<Template>): seq<ToolDef>
    requires |templates| <= MAX_ARRAY_LENGTH
  {
    var names := ToolNames(Ids(templates));
    ToolNamesGood(Ids(templates));
    Members(names);
    seq(|names|, i requires 0 <= i < |names| => RunTool(names[i].name, Find(templates, names[i].id)))
  }

  /** The tools before they are sorted. */
  function Built(templates: seq<Template>): seq<ToolDef>
    requires |templates| <= MAX_ARRAY_LENGTH
  {
    var tools := RunTools(templates);
    tools + if tools == [] then [] else [JobResultTool()]
  }

  /** `comfyToMcp` */
  function ComfyToMcp(templates: seq<Template>): seq<ToolDef>
    requires |templates| <= MAX_ARRAY_LENGTH
  {
    SortByName(Built(templates))
  }

  lemma {:induction false} InFront(t: ToolDef, sorted: seq<ToolDef>)
    requires StrictlySorted(sorted, |sorted|) && sorted != [] && Before(t.name, sorted[0].name)
    ensures StrictlySorted([t] + sorted, |sorted| + 1)
  {
    forall i | 0 <= i < |sorted| ensures Before(t.name, sorted[i].name) {
      if i > 0 { BeforeTransitive(t.name, sorted[0].name, sorted[i].name); }
    }
  }

  lemma {:induction false} BehindHead(head: ToolDef, t: ToolDef, tail: seq<ToolDef>, rest: seq<ToolDef>)
    requires StrictlySorted([head] + tail, |tail| + 1) && Before(head.name, t.name)
    requires multiset(rest) == multiset(tail) + multiset{t} && StrictlySorted(rest, |rest|)
    ensures StrictlySorted([head] + rest, |rest| + 1)
  {
    forall i | 0 <= i < |rest| ensures Before(head.name, rest[i].name) {
      assert rest[i] in multiset(rest);
      if rest[i] != t {
        assert rest[i] in multiset(tail);
        var j :| 0 <= j < |tail| && tail[j] == rest[i];
        assert ([head] + tail)[0] == head && ([head] + tail)[j + 1] == rest[i];
      }
    }
  }

  lemma {:induction false} InsertKeeps(t: ToolDef, sorted: seq<ToolDef>)
    requires StrictlySorted(sorted, |sorted|) && forall i :: 0 <= i < |sorted| ==> sorted[i].name != t.name
    ensures multiset(Insert(t, sorted)) == multiset(sorted) + multiset{t}
    ensures StrictlySorted(Insert(t, sorted), |Insert(t, sorted)|)
  {
    if sorted != [] {
      assert sorted == [sorted[0]] + sorted[1..];
      if Before(t.name, sorted[0].name) {
        InFront(t, sorted);
      } else {
        BeforeTotal(t.name, sorted[0].name);
        InsertKeeps(t, sorted[1..]);
        BehindHead(sorted[0], t, sorted[1..], Insert(t, sorted[1..]));
      }
    }
  }

  predicate NamesDiffer(tools: seq<ToolDef>) {
    forall i, j :: 0 <= i < j < |tools| ==> tools[i].name != tools[j].name
  }

  lemma {:induction false} SortKeeps(tools: seq<ToolDef>)
    requires NamesDiffer(tools)
    ensures multiset(SortByName(tools)) == multiset(tools)
    ensures StrictlySorted(SortByName(tools), |SortByName(tools)|)
  {
    if tools != [] {
      var front, last := tools[..|tools| - 1], tools[|tools| - 1];
      assert tools == front + [last];
      SortKeeps(front);
      var sorted := SortByName(front);
      forall i | 0 <= i < |sorted| ensures sorted[i].name != last.name {
        assert sorted[i] in multiset(front);
      }
      InsertKeeps(last, sorted);
    }
  }

  lemma {:induction false} RunToolIsValid(name: string, tpl: Template)
    requires ValidName(name)
    ensures ValidDef(RunTool(name, tpl))
  {
    var d := RunTool(name, tpl).description;
    assert RUN_TEXT[0] == 'R';
    assert d[0] == Units(RUN_TEXT)[0] == 'R' as int;
  }

  lemma {:induction false} JobResultToolIsValid()
    ensures ValidDef(JobResultTool())
  {
    assert JobResultTool().description[0] == 'F' as int;
  }

  /** The tools before sorting: valid, with distinct names. */
  lemma {:induction false} BuiltAreValid(templates: seq<Template>)
    requires |templates| <= MAX_ARRAY_LENGTH
    ensures forall i :: 0 <= i < |Built(templates)| ==> ValidDef(Built(templates)[i])
  {
    var tools, runs, names := Built(templates), RunTools(templates), ToolNames(Ids(templates));
    ToolNamesGood(Ids(templates));
    Members(names);
    forall i | 0 <= i < |tools| ensures ValidDef(tools[i]) {
      if i < |runs| {
        RunToolIsValid(names[i].name, Find(templates, names[i].id));
      } else {
        JobResultToolIsValid();
      }
    }
  }

  lemma {:induction false} BuiltDiffer(templates: seq<Template>)
    requires |templates| <= MAX_ARRAY_LENGTH
    ensures NamesDiffer(Built(templates))
  {
    var tools, names := Built(templates), ToolNames(Ids(templates));
    ToolNamesGood(Ids(templates));
    forall i, j | 0 <= i < j < |tools| ensures tools[i].name != tools[j].name {
      assert RunName(names[i].name);
      assert names[i].name[0] == 'r' && JOB_RESULT_TOOL[0] == 'g';
    }
  }

  lemma {:induction false} AsBuilt(templates: seq<Template>) returns (tools: seq<ToolDef>)
    requires |templates| <= MAX_ARRAY_LENGTH
    ensures tools == Built(templates) && ComfyToMcp(templates) == SortByName(tools) && NamesDiffer(tools)
    ensures forall i :: 0 <= i < |tools| ==> ValidDef(tools[i])
    ensures multiset(ComfyToMcp(templates)) == multiset(tools)
    ensures RunTools(templates) <= tools
  {
    tools := Built(templates);
    BuiltAreValid(templates);
    BuiltDiffer(templates);
    SortKeeps(tools);
  }

  /** For every fence the validator finds nothing wrong with the advertised list. */
  lemma {:induction false} AdvertisedListIsValid(templates: seq<Template>)
    requires |templates| <= MAX_ARRAY_LENGTH
    ensures AllProblems(ComfyToMcp(templates)) == []
  {
    var defs := ComfyToMcp(templates);
    var tools := AsBuilt(templates);
    SortKeeps(tools);
    forall i | 0 <= i < |defs| ensures ValidDef(defs[i]) {
      assert defs[i] in multiset(tools);
    }
    NoProblemsExactly(defs);
  }

  // ---- Calls ----

  datatype Args = Fields(fields: map<string, Value>) | NotAnObjectArg

  datatype CallError = UnknownTool | ArgsNotObject | BadJobId

  datatype Plan = Submit(templateId: JsString, params: map<string, Value>) | GetResult(jobId: string) | Refuse(why: CallError)

  /** `names.get(name)` */
  function Lookup(names: Names, name: string): (r: Option<JsString>)
    ensures r.Some? ==> Entry(name, r.value) in names
    ensures r.None? ==> forall i :: 0 <= i < |names| ==> names[i].name != name
  {
    if names == [] then None
    else if names[0].name == name then Some(names[0].id)
    else
      var r := Lookup(names[1..], name);
      assert names == [names[0]] + names[1..];
      r
  }

  function ComfyMcpCall(name: string, args: Args, templates: seq<Template>): Plan {
    var names := ToolNames(Ids(templates));
    if name == JOB_RESULT_TOOL then
      if names == [] then Refuse(UnknownTool)
      else if args.NotAnObjectArg? then Refuse(ArgsNotObject)
      else if "job_id" !in args.fields || !args.fields["job_id"].Text? || args.fields["job_id"].text == "" then
        Refuse(BadJobId)
      else GetResult(args.fields["job_id"].text)
    else
      var id := Lookup(names, name);
      if id.None? then Refuse(UnknownTool)
      else if args.NotAnObjectArg? then Refuse(ArgsNotObject)
      else Submit(id.value, args.fields)
  }

  predicate Advertised(templates: seq<Template>, d: ToolDef)
    requires |templates| <= MAX_ARRAY_LENGTH
  {
    d in ComfyToMcp(templates)
  }

  lemma {:induction false} LookupAt(names: Names, i: nat)
    requires i < |names| && Differ(names)
    ensures Lookup(names, names[i].name) == Some(names[i].id)
  {
    if i > 0 {
      assert names[1..][i - 1] == names[i];
      LookupAt(names[1..], i - 1);
    }
  }

  lemma {:induction false} RunNamesAreNotJobResult(name: string)
    requires RunName(name)
    ensures name != JOB_RESULT_TOOL
  {
    assert name[0] == 'r' && JOB_RESULT_TOOL[0] == 'g';
  }

  /** The tool of the `i`-th name is advertised, and the name leads back to its template. */
  lemma {:induction false} RunToolAt(templates: seq<Template>, i: nat)
    requires |templates| <= MAX_ARRAY_LENGTH && i < |ToolNames(Ids(templates))|
    ensures var e := ToolNames(Ids(templates))[i];
      && e.name != JOB_RESULT_TOOL && e.id in Distinct(Ids(templates))
      && Advertised(templates, RunTool(e.name, Find(templates, e.id)))
      && Lookup(ToolNames(Ids(templates)), e.name) == Some(e.id)
  {
    var names := ToolNames(Ids(templates));
    var tools := AsBuilt(templates);
    ToolNamesGood(Ids(templates));
    Members(names);
    LookupAt(names, i);
    RunNamesAreNotJobResult(names[i].name);
    assert tools[i] == RunTools(templates)[i];
    assert tools[i] in multiset(tools);
  }

  /** Everything advertised is such a tool, or the job-result tool beside at least one. */
  lemma {:induction false} AdvertisedFrom(templates: seq<Template>, d: ToolDef) returns (i: nat)
    requires |templates| <= MAX_ARRAY_LENGTH && Advertised(templates, d)
    ensures ToolNames(Ids(templates)) != []
    ensures d.name != JOB_RESULT_TOOL ==>
      i < |ToolNames(Ids(templates))| && d.name == ToolNames(Ids(templates))[i].name &&
      ToolNames(Ids(templates))[i].id in Distinct(Ids(templates)) &&
      d == RunTool(d.name, Find(templates, ToolNames(Ids(templates))[i].id))
  {
    var names := ToolNames(Ids(templates));
    var tools := AsBuilt(templates);
    assert d in multiset(tools);
    i :| 0 <= i < |tools| && tools[i] == d;
    if d.name != JOB_RESULT_TOOL {
      RunToolAt(templates, i);
      assert tools[i] == RunTools(templates)[i];
    }
  }

  lemma {:induction false} JobResultAdvertised(templates: seq<Template>)
    requires |templates| <= MAX_ARRAY_LENGTH && ToolNames(Ids(templates)) != []
    ensures Advertised(templates, JobResultTool())
  {
    var tools := AsBuilt(templates);
    assert tools[|tools| - 1] == JobResultTool() && tools[|tools| - 1] in multiset(tools);
  }

  /** A name is refused as unknown exactly when no advertised tool carries it. */
  lemma {:induction false} OnlyAdvertisedNamesRun(templates: seq<Template>, name: string, args: Args)
    requires |templates| <= MAX_ARRAY_LENGTH
    ensures ComfyMcpCall(name, args, templates) == Refuse(UnknownTool) <==>
      forall d :: Advertised(templates, d) ==> d.name != name
  {
    var names := ToolNames(Ids(templates));
    if ComfyMcpCall(name, args, templates) == Refuse(UnknownTool) {
      forall d | Advertised(templates, d) ensures d.name != name {
        var i := AdvertisedFrom(templates, d);
        if d.name != JOB_RESULT_TOOL { RunToolAt(templates, i); }
      }
    } else if name == JOB_RESULT_TOOL {
      JobResultAdvertised(templates);
    } else {
      var id := Lookup(names, name);
      var i :| 0 <= i < |names| && names[i] == Entry(name, id.value);
      RunToolAt(templates, i);
    }
  }

  /**
  Calling an advertised run tool plans exactly the template it was advertised for: the first with
  that id, whose parameters its schema lists. Arguments go through untouched.
  */
  lemma {:induction false} CallPlansWhatWasAdvertised(templates: seq<Template>, d: ToolDef, fields: map<string, Value>)
    requires |templates| <= MAX_ARRAY_LENGTH && Advertised(templates, d) && d.name != JOB_RESULT_TOOL
    ensures var plan := ComfyMcpCall(d.name, Fields(fields), templates);
      && plan.Submit? && plan.params == fields
      && plan.templateId in Distinct(Ids(templates))
      && d == RunTool(d.name, Find(templates, plan.templateId))
  {
    var i := AdvertisedFrom(templates, d);
    RunToolAt(templates, i);
  }

  ghost predicate OnlyToolFor(templates: seq<Template>, name: string, id: JsString, fields: map<string, Value>) {
    && ComfyMcpCall(name, Fields(fields), templates) == Submit(id, fields)
    && forall other :: ComfyMcpCall(other, Fields(fields), templates) == Submit(id, fields) ==> other == name
  }

  lemma {:induction false} OneNamePerId(templates: seq<Template>, i: nat, other: string, fields: map<string, Value>)
    requires |templates| <= MAX_ARRAY_LENGTH && i < |ToolNames(Ids(templates))|
    requires ComfyMcpCall(other, Fields(fields), templates) == Submit(ToolNames(Ids(templates))[i].id, fields)
    ensures other == ToolNames(Ids(templates))[i].name
  {
    var names := ToolNames(Ids(templates));
    ToolNamesGood(Ids(templates));
    var j :| 0 <= j < |names| && names[j] == Entry(other, names[i].id);
  }

  /** Every distinct template id is reached by exactly one tool. */
  lemma {:induction false} EveryTemplateHasOneTool(templates: seq<Template>, id: JsString, fields: map<string, Value>)
    requires |templates| <= MAX_ARRAY_LENGTH && id in Distinct(Ids(templates))
    ensures exists d :: Advertised(templates, d) && OnlyToolFor(templates, d.name, id, fields)
  {
    var names := ToolNames(Ids(templates));
    assert id in IdSet(names) by { ToolNamesGood(Ids(templates)); }
    var i :| 0 <= i < |names| && names[i].id == id;
    RunToolAt(templates, i);
    var d := RunTool(names[i].name, Find(templates, id));
    assert OnlyToolFor(templates, d.name, id, fields) by {
      forall other | ComfyMcpCall(other, Fields(fields), templates) == Submit(id, fields) ensures other == d.name {
        OneNamePerId(templates, i, other, fields);
      }
    }
  }

  lemma {:induction false} PropertiesAreDeclared(specs: seq<ParamSpec>, name: string)
    ensures name in PropertiesOf(specs) <==> exists i :: 0 <= i < |specs| && !specs[i].SeedParam? && specs[i].name == name
  {
    if specs != [] {
      var front := specs[..|specs| - 1];
      PropertiesAreDeclared(front, name);
      assert specs == front + [specs[|specs| - 1]];
      if exists i :: 0 <= i < |specs| && !specs[i].SeedParam? && specs[i].name == name {
        var i :| 0 <= i < |specs| && !specs[i].SeedParam? && specs[i].name == name;
        assert i < |front| ==> front[i] == specs[i];
      }
    }
  }

  lemma {:induction false} NotUnknown(g: Graph, specs: seq<ParamSpec>, call: Call, n: nat)
    requires n <= |specs|
    ensures ApplySpecs(g, specs, call, n) != Err(UnknownParam)
  {
    if n > 0 {
      NotUnknown(g, specs, call, n - 1);
      var r := ApplySpecs(g, specs, call, n - 1);
      if r.Ok? && specs[n - 1].SeedParam? {
        BindAllErr(r.value, specs[n - 1].targets, Seed(call, Draws(specs, n - 1)));
      }
    }
  }

  /** Arguments that keep to the advertised schema are never refused as undeclared by the run they plan. */
  lemma {:induction false} SchemaMatchesTheRun(templates: seq<Template>, d: ToolDef, call: Call)
    requires |templates| <= MAX_ARRAY_LENGTH && Advertised(templates, d) && d.name != JOB_RESULT_TOOL
    requires call.params.Keys <= d.inputSchema.properties.Keys
    ensures var plan := ComfyMcpCall(d.name, Fields(call.params), templates);
      plan.Submit? && plan.templateId in Distinct(Ids(templates)) &&
      Reconstruct(Find(templates, plan.templateId), call) != Err(UnknownParam)
  {
    CallPlansWhatWasAdvertised(templates, d, call.params);
    var tpl := Find(templates, ComfyMcpCall(d.name, Fields(call.params), templates).templateId);
    forall name | name in call.params ensures Declared(tpl.params, name) {
      PropertiesAreDeclared(tpl.params, name);
    }
    NotUnknown(tpl.graph, tpl.params, call, |tpl.params|);
  }
}
