/**
 * The pure part of the template preview generator (scripts/generate-template-previews.ts):
 * whether a template needs an AI generator, whether its preview must be regenerated, and
 * the conversion of a Studio workflow (nodes and edges) into a pipeline of steps: a batched
 * topological sort (Kahn's algorithm, one batch per round of ready nodes) followed by one
 * variable `v<i>` per sorted node and one step per generator or connected transform node.
 */
module TemplatePreviews {
  import opened Wrappers
  import opened Text
  import opened Seqs

  /** A node's `params` object, passed through to the pipeline untouched. */
  type Params = map<string, string>

  /** The fields of a node's `data` record the conversion reads. */
  datatype NodeData = NodeData(generatorName: Option<string>, operation: Option<string>, params: Params)

  datatype StudioNode = StudioNode(id: string, kind: string, data: NodeData)

  datatype StudioEdge = StudioEdge(id: string, source: string, target: string,
                                   sourceHandle: Option<string>, targetHandle: Option<string>)

  datatype Workflow = Workflow(nodes: seq<StudioNode>, edges: seq<StudioEdge>)

  datatype Template = Template(id: string, name: string, description: string, category: string,
                               generator: string, workflow: Workflow)

  datatype Step =
    | Generate(generator: Option<string>, params: Params, out: string)
    | Transform(op: Option<string>, params: Params, input: string, out: string)

  datatype Pipeline = Pipeline(name: string, steps: seq<Step>)

  /** Generators that call a paid image API. */
  const AiGenerators: set<string> :=
    {"openai", "openai-images", "stability", "stability-ai", "gemini", "gemini-generate",
     "google-imagen", "replicate"}

  // ---------------------------------------------------------------------------------------
  // isAITemplate and needsRegeneration

  /** A generator node whose (non-empty) `generatorName` is an AI generator. */
  predicate IsAiNode(n: StudioNode) {
    n.kind == "generator" && n.data.generatorName.Some? && n.data.generatorName.value != ""
    && n.data.generatorName.value in AiGenerators
  }

  /** The scan over the workflow's nodes, returning at the first AI generator node. */
  function HasAiNode(nodes: seq<StudioNode>): (r: bool)
    ensures r <==> exists i :: 0 <= i < |nodes| && nodes[i].kind == "generator" &&
                              nodes[i].data.generatorName.Some? &&
                              nodes[i].data.generatorName.value in AiGenerators
  {
    if |nodes| == 0 then false
    else if IsAiNode(nodes[0]) then true
    else
      assert forall i :: 1 <= i < |nodes| ==> nodes[i] == nodes[1..][i - 1];
      HasAiNode(nodes[1..])
  }

  /** `isAITemplate`: the template's own generator, or one of its generator nodes, is an AI one. */
  function IsAiTemplate(t: Template): (r: bool)
    ensures r <==> t.generator in AiGenerators ||
                   exists i :: 0 <= i < |t.workflow.nodes| && t.workflow.nodes[i].kind == "generator" &&
                               t.workflow.nodes[i].data.generatorName.Some? &&
                               t.workflow.nodes[i].data.generatorName.value in AiGenerators
  {
    if t.generator in AiGenerators then true else HasAiNode(t.workflow.nodes)
  }

  /** What is on disk for a template: whether its image exists, and its hash file's text. */
  datatype StoredPreview = StoredPreview(imageExists: bool, storedHash: Option<string>)

  /**
   * `needsRegeneration`; `hash` stands for `computeTemplateHash` (a SHA-256 digest, not
   * modelled). With `force` the stored files are not consulted.
   */
  function NeedsRegeneration(t: Template, force: bool, stored: StoredPreview, hash: Template -> string): (r: bool)
    ensures force ==> r
    ensures !stored.imageExists || stored.storedHash.None? ==> r
  {
    if force then true
    else if !stored.imageExists then true
    else if stored.storedHash.None? then true
    else Trim(stored.storedHash.value) != hash(t)
  }

  /** `force` decides alone: whatever is stored, the answer is yes. */
  lemma ForceIgnoresStore(t: Template, a: StoredPreview, b: StoredPreview, h: Template -> string, h': Template -> string)
    ensures NeedsRegeneration(t, true, a, h) == NeedsRegeneration(t, true, b, h')
  {
  }

  /**
   * After a preview was written with its hash (a hex digest: no whitespace at either end),
   * the template is up to date until its hash changes.
   */
  lemma UpToDateAfterWrite(t: Template, hash: Template -> string)
    requires hash(t) == [] || (!IsSpace(hash(t)[0]) && !IsSpace(hash(t)[|hash(t)| - 1]))
    ensures !NeedsRegeneration(t, false, StoredPreview(true, Some(hash(t))), hash)
  {
    TrimOfTrimmed(hash(t));
  }

  // ---------------------------------------------------------------------------------------
  // The dependency map

  function InitDeps(nodes: seq<StudioNode>): map<string, set<string>> {
    if |nodes| == 0 then map[]
    else InitDeps(nodes[..|nodes| - 1])[nodes[|nodes| - 1].id := {}]
  }

  /** Adds each edge's source to its target's entry; an edge to an unknown target is skipped. */
  function AddEdges(deps: map<string, set<string>>, edges: seq<StudioEdge>): map<string, set<string>> {
    if |edges| == 0 then deps
    else
      var m := AddEdges(deps, edges[..|edges| - 1]);
      var e := edges[|edges| - 1];
      if e.target in m then m[e.target := m[e.target] + {e.source}] else m
  }

  /** The dependency map of `workflowToPipeline`. */
  function Deps(w: Workflow): map<string, set<string>> {
    AddEdges(InitDeps(w.nodes), w.edges)
  }

  function NodeIds(nodes: seq<StudioNode>): set<string> {
    set i | 0 <= i < |nodes| :: nodes[i].id
  }

  /** Sources of the edges that end at `id`. */
  function Sources(edges: seq<StudioEdge>, id: string): set<string> {
    set i | 0 <= i < |edges| && edges[i].target == id :: edges[i].source
  }

  lemma NodeIdsLast(nodes: seq<StudioNode>)
    requires |nodes| > 0
    ensures NodeIds(nodes) == NodeIds(nodes[..|nodes| - 1]) + {nodes[|nodes| - 1].id}
  {
    var p := nodes[..|nodes| - 1];
    forall id | id in NodeIds(nodes) ensures id in NodeIds(p) + {nodes[|nodes| - 1].id} {
      var i :| 0 <= i < |nodes| && nodes[i].id == id;
      if i < |p| {
        assert p[i] == nodes[i];
      }
    }
    forall id | id in NodeIds(p) ensures id in NodeIds(nodes) {
      var i :| 0 <= i < |p| && p[i].id == id;
      assert nodes[i] == p[i];
    }
  }

  lemma {:induction false} InitDepsSpec(nodes: seq<StudioNode>)
    ensures InitDeps(nodes).Keys == NodeIds(nodes)
    ensures forall id :: id in InitDeps(nodes) ==> InitDeps(nodes)[id] == {}
  {
    if |nodes| > 0 {
      InitDepsSpec(nodes[..|nodes| - 1]);
      NodeIdsLast(nodes);
    }
  }

  lemma SourcesLast(edges: seq<StudioEdge>, id: string)
    requires |edges| > 0
    ensures var e := edges[|edges| - 1];
            Sources(edges, id) ==
            Sources(edges[..|edges| - 1], id) + (if e.target == id then {e.source} else {})
  {
    var p := edges[..|edges| - 1];
    var e := edges[|edges| - 1];
    forall x | x in Sources(edges, id)
      ensures x in Sources(p, id) + (if e.target == id then {e.source} else {})
    {
      var i :| 0 <= i < |edges| && edges[i].target == id && edges[i].source == x;
      if i < |p| {
        assert p[i] == edges[i];
      }
    }
    forall x | x in Sources(p, id) ensures x in Sources(edges, id) {
      var i :| 0 <= i < |p| && p[i].target == id && p[i].source == x;
      assert edges[i] == p[i];
    }
  }

  lemma {:induction false} AddEdgesSpec(deps: map<string, set<string>>, edges: seq<StudioEdge>)
    ensures AddEdges(deps, edges).Keys == deps.Keys
    ensures forall id :: id in deps ==> AddEdges(deps, edges)[id] == deps[id] + Sources(edges, id)
  {
    if |edges| > 0 {
      AddEdgesSpec(deps, edges[..|edges| - 1]);
      forall id | id in deps
        ensures AddEdges(deps, edges)[id] == deps[id] + Sources(edges, id)
      {
        SourcesLast(edges, id);
      }
    }
  }

  /**
   * The map has an entry for every node id and nothing else, holding the sources of the edges
   * into that node; edges whose target is no node id contribute nothing.
   */
  lemma DepsSpec(w: Workflow)
    ensures Deps(w).Keys == NodeIds(w.nodes)
    ensures forall id :: id in Deps(w) ==> Deps(w)[id] == Sources(w.edges, id)
  {
    InitDepsSpec(w.nodes);
    AddEdgesSpec(InitDeps(w.nodes), w.edges);
  }

  // ---------------------------------------------------------------------------------------
  // The batched topological sort (indices into `nodes`)

  /** `deps.get(id) || new Set()`. */
  function DepsOf(deps: map<string, set<string>>, id: string): set<string> {
    if id in deps then deps[id] else {}
  }

  /** The `ready` filter: not completed yet, every dependency completed. */
  predicate IsReady(nodes: seq<StudioNode>, deps: map<string, set<string>>, completed: set<string>, i: nat)
    requires i < |nodes|
  {
    nodes[i].id !in completed && DepsOf(deps, nodes[i].id) <= completed
  }

  predicate Increasing(s: seq<nat>) {
    forall a, b :: 0 <= a < b < |s| ==> s[a] < s[b]
  }

  predicate InRange(s: seq<nat>, n: nat) {
    forall a :: 0 <= a < |s| ==> s[a] < n
  }

  /** The ready nodes from index `k` on, in workflow order. */
  function ReadyFrom(nodes: seq<StudioNode>, deps: map<string, set<string>>, completed: set<string>, k: nat): (r: seq<nat>)
    requires k <= |nodes|
    ensures forall j :: 0 <= j < |r| ==> k <= r[j] < |nodes| && IsReady(nodes, deps, completed, r[j])
    ensures forall i :: k <= i < |nodes| && IsReady(nodes, deps, completed, i) ==> i in r
    ensures Increasing(r)
    decreases |nodes| - k
  {
    if k == |nodes| then []
    else if IsReady(nodes, deps, completed, k) then [k] + ReadyFrom(nodes, deps, completed, k + 1)
    else ReadyFrom(nodes, deps, completed, k + 1)
  }

  function Ready(nodes: seq<StudioNode>, deps: map<string, set<string>>, completed: set<string>): (r: seq<nat>)
    ensures InRange(r, |nodes|)
  {
    ReadyFrom(nodes, deps, completed, 0)
  }

  /** Ids of the nodes at the given indices (indices out of range contribute nothing). */
  function IdsOf(nodes: seq<StudioNode>, idx: seq<nat>): set<string> {
    set k | 0 <= k < |idx| && idx[k] < |nodes| :: nodes[idx[k]].id
  }

  /** Indices of the nodes whose id is not completed yet: what the sort can still place. */
  function Unsorted(nodes: seq<StudioNode>, completed: set<string>): set<nat> {
    set i: nat | i < |nodes| && nodes[i].id !in completed
  }

  function Flatten(bs: seq<seq<nat>>): seq<nat> {
    if |bs| == 0 then [] else Flatten(bs[..|bs| - 1]) + bs[|bs| - 1]
  }

  lemma UnsortedShrinks(nodes: seq<StudioNode>, deps: map<string, set<string>>, completed: set<string>)
    requires |Ready(nodes, deps, completed)| > 0
    ensures Unsorted(nodes, completed + IdsOf(nodes, Ready(nodes, deps, completed))) < Unsorted(nodes, completed)
  {
    var r := Ready(nodes, deps, completed);
    assert nodes[r[0]].id in IdsOf(nodes, r);
    assert r[0] in Unsorted(nodes, completed);
  }

  /** The `while` loop: one batch of ready nodes per round, until all are placed or none is ready. */
  function Sorting(nodes: seq<StudioNode>, deps: map<string, set<string>>, completed: set<string>,
                   batches: seq<seq<nat>>): seq<seq<nat>>
    decreases Unsorted(nodes, completed)
  {
    if |Flatten(batches)| >= |nodes| then batches
    else
      var ready := Ready(nodes, deps, completed);
      if |ready| == 0 then batches
      else
        UnsortedShrinks(nodes, deps, completed);
        Sorting(nodes, deps, completed + IdsOf(nodes, ready), batches + [ready])
  }

  function Batches(w: Workflow): seq<seq<nat>> {
    Sorting(w.nodes, Deps(w), {}, [])
  }

  /** Positions in `workflow.nodes` of the sorted nodes, in sorted order. */
  function SortedIndices(w: Workflow): seq<nat> {
    Flatten(Batches(w))
  }

  ghost predicate BatchesInRange(nodes: seq<StudioNode>, bs: seq<seq<nat>>) {
    forall k, j :: 0 <= k < |bs| && 0 <= j < |bs[k]| ==> bs[k][j] < |nodes|
  }

  predicate NoDup(s: seq<nat>) {
    forall a, b :: 0 <= a < b < |s| ==> s[a] != s[b]
  }

  ghost predicate AllIncreasing(bs: seq<seq<nat>>) {
    forall k :: 0 <= k < |bs| ==> Increasing(bs[k])
  }

  /** Every dependency of a node in batch `k` is the id of a node in a batch before `k`. */
  ghost predicate DepsEarlier(nodes: seq<StudioNode>, deps: map<string, set<string>>, bs: seq<seq<nat>>)
    requires BatchesInRange(nodes, bs)
  {
    forall k, j :: 0 <= k < |bs| && 0 <= j < |bs[k]| ==>
      DepsOf(deps, nodes[bs[k][j]].id) <= IdsOf(nodes, Flatten(bs[..k]))
  }

  /** What the sort keeps while it runs. */
  ghost predicate Inv(nodes: seq<StudioNode>, deps: map<string, set<string>>, completed: set<string>,
                      batches: seq<seq<nat>>) {
    BatchesInRange(nodes, batches)
    && completed == IdsOf(nodes, Flatten(batches))
    && NoDup(Flatten(batches))
    && AllIncreasing(batches)
    && DepsEarlier(nodes, deps, batches)
  }

  lemma IdsOfAppend(nodes: seq<StudioNode>, a: seq<nat>, b: seq<nat>)
    ensures IdsOf(nodes, a + b) == IdsOf(nodes, a) + IdsOf(nodes, b)
  {
    forall id | id in IdsOf(nodes, a + b) ensures id in IdsOf(nodes, a) + IdsOf(nodes, b) {
      var k :| 0 <= k < |a + b| && (a + b)[k] < |nodes| && nodes[(a + b)[k]].id == id;
      if k >= |a| {
        assert (a + b)[k] == b[k - |a|];
      } else {
        assert (a + b)[k] == a[k];
      }
    }
    forall id | id in IdsOf(nodes, a) ensures id in IdsOf(nodes, a + b) {
      var k :| 0 <= k < |a| && a[k] < |nodes| && nodes[a[k]].id == id;
      assert (a + b)[k] == a[k];
    }
    forall id | id in IdsOf(nodes, b) ensures id in IdsOf(nodes, a + b) {
      var k :| 0 <= k < |b| && b[k] < |nodes| && nodes[b[k]].id == id;
      assert (a + b)[|a| + k] == b[k];
    }
  }

  lemma FlattenSnoc(bs: seq<seq<nat>>, b: seq<nat>)
    ensures Flatten(bs + [b]) == Flatten(bs) + b
  {
    assert (bs + [b])[..|bs|] == bs;
  }

  lemma {:induction false} FlattenRange(nodes: seq<StudioNode>, bs: seq<seq<nat>>)
    requires BatchesInRange(nodes, bs)
    ensures InRange(Flatten(bs), |nodes|)
  {
    if |bs| > 0 {
      var p := bs[..|bs| - 1];
      assert BatchesInRange(nodes, p) by {
        assert forall k :: 0 <= k < |p| ==> p[k] == bs[k];
      }
      FlattenRange(nodes, p);
    }
  }

  lemma RangeStep(nodes: seq<StudioNode>, bs: seq<seq<nat>>, b: seq<nat>)
    requires BatchesInRange(nodes, bs) && InRange(b, |nodes|)
    ensures BatchesInRange(nodes, bs + [b])
  {
  }

  lemma NoDupStep(nodes: seq<StudioNode>, deps: map<string, set<string>>, completed: set<string>, f: seq<nat>)
    requires InRange(f, |nodes|) && NoDup(f) && completed == IdsOf(nodes, f)
    ensures NoDup(f + Ready(nodes, deps, completed))
  {
    var ready := Ready(nodes, deps, completed);
    var g := f + ready;
    forall a, b | 0 <= a < b < |g| ensures g[a] != g[b] {
      if a < |f| && b < |f| {
        assert g[a] == f[a] && g[b] == f[b];
      } else if a < |f| {
        assert nodes[f[a]].id in IdsOf(nodes, f);
        assert IsReady(nodes, deps, completed, ready[b - |f|]);
        assert g[a] == f[a] && g[b] == ready[b - |f|];
      } else {
        assert g[a] == ready[a - |f|] && g[b] == ready[b - |f|];
      }
    }
  }

  lemma DepsStep(nodes: seq<StudioNode>, deps: map<string, set<string>>, completed: set<string>,
                 bs: seq<seq<nat>>)
    requires BatchesInRange(nodes, bs) && DepsEarlier(nodes, deps, bs)
    requires completed == IdsOf(nodes, Flatten(bs))
    ensures BatchesInRange(nodes, bs + [Ready(nodes, deps, completed)])
    ensures DepsEarlier(nodes, deps, bs + [Ready(nodes, deps, completed)])
  {
    var ready := Ready(nodes, deps, completed);
    var bs' := bs + [ready];
    RangeStep(nodes, bs, ready);
    forall k, j | 0 <= k < |bs'| && 0 <= j < |bs'[k]|
      ensures DepsOf(deps, nodes[bs'[k][j]].id) <= IdsOf(nodes, Flatten(bs'[..k]))
    {
      if k < |bs| {
        assert bs'[..k] == bs[..k];
        assert bs'[k] == bs[k];
      } else {
        assert bs'[..k] == bs;
        assert IsReady(nodes, deps, completed, ready[j]);
      }
    }
  }

  lemma InvStep(nodes: seq<StudioNode>, deps: map<string, set<string>>, completed: set<string>,
                batches: seq<seq<nat>>)
    requires Inv(nodes, deps, completed, batches)
    ensures var ready := Ready(nodes, deps, completed);
            Inv(nodes, deps, completed + IdsOf(nodes, ready), batches + [ready])
  {
    var ready := Ready(nodes, deps, completed);
    FlattenSnoc(batches, ready);
    FlattenRange(nodes, batches);
    IdsOfAppend(nodes, Flatten(batches), ready);
    NoDupStep(nodes, deps, completed, Flatten(batches));
    DepsStep(nodes, deps, completed, batches);
    assert AllIncreasing(batches + [ready]) by {
      assert forall k :: 0 <= k < |batches| ==> (batches + [ready])[k] == batches[k];
    }
  }

  lemma {:induction false} SortingInv(nodes: seq<StudioNode>, deps: map<string, set<string>>,
                                      completed: set<string>, batches: seq<seq<nat>>)
    requires Inv(nodes, deps, completed, batches)
    ensures var r := Sorting(nodes, deps, completed, batches);
            Inv(nodes, deps, IdsOf(nodes, Flatten(r)), r) &&
            (|Flatten(r)| >= |nodes| || |Ready(nodes, deps, IdsOf(nodes, Flatten(r)))| == 0)
    decreases Unsorted(nodes, completed)
  {
    if |Flatten(batches)| < |nodes| {
      var ready := Ready(nodes, deps, completed);
      if |ready| > 0 {
        UnsortedShrinks(nodes, deps, completed);
        InvStep(nodes, deps, completed, batches);
        SortingInv(nodes, deps, completed + IdsOf(nodes, ready), batches + [ready]);
      }
    }
  }

  lemma BatchesInv(w: Workflow)
    ensures Inv(w.nodes, Deps(w), IdsOf(w.nodes, SortedIndices(w)), Batches(w))
    ensures |SortedIndices(w)| >= |w.nodes| || |Ready(w.nodes, Deps(w), IdsOf(w.nodes, SortedIndices(w)))| == 0
  {
    var none: seq<seq<nat>> := [];
    assert Flatten(none) == [];
    SortingInv(w.nodes, Deps(w), {}, []);
  }

  lemma {:induction false} FlattenMember(bs: seq<seq<nat>>, a: nat)
    requires a < |Flatten(bs)|
    ensures exists k, j :: 0 <= k < |bs| && 0 <= j < |bs[k]| && bs[k][j] == Flatten(bs)[a] &&
                           |Flatten(bs[..k])| + j == a
  {
    var n := |bs|;
    var p := Flatten(bs[..n - 1]);
    assert bs[..n - 1][..n - 1] == bs[..n - 1];
    if a < |p| {
      FlattenMember(bs[..n - 1], a);
      var k, j :| 0 <= k < n - 1 && 0 <= j < |bs[..n - 1][k]| && bs[..n - 1][k][j] == p[a] &&
                  |Flatten(bs[..n - 1][..k])| + j == a;
      assert bs[..n - 1][..k] == bs[..k];
    } else {
      assert bs[n - 1][a - |p|] == Flatten(bs)[a];
    }
  }

  lemma DistinctBelow(s: seq<nat>, n: nat)
    requires InRange(s, n) && NoDup(s)
    ensures |s| <= n
  {
    var r := seq(n, i requires 0 <= i < n => i);
    DistinctCard(s);
    DistinctCard(r);
    var S := set a | 0 <= a < |s| :: s[a];
    var R := set a | 0 <= a < |r| :: r[a];
    forall x | x in S ensures x in R {
      var a :| 0 <= a < |s| && s[a] == x;
      assert r[x] == x;
    }
    assert R == S + (R - S);
  }

  lemma {:induction false} DistinctCard(s: seq<nat>)
    requires NoDup(s)
    ensures |set a | 0 <= a < |s| :: s[a]| == |s|
  {
    if |s| > 0 {
      var p := s[..|s| - 1];
      assert NoDup(p) by {
        assert forall a :: 0 <= a < |p| ==> p[a] == s[a];
      }
      DistinctCard(p);
      var x := s[|s| - 1];
      var S := set a | 0 <= a < |s| :: s[a];
      var P := set a | 0 <= a < |p| :: p[a];
      forall y | y in S ensures y in P + {x} {
        var a :| 0 <= a < |s| && s[a] == y;
        if a < |p| {
          assert p[a] == s[a];
        }
      }
      forall y | y in P ensures y in S {
        var a :| 0 <= a < |p| && p[a] == y;
        assert s[a] == p[a];
      }
      assert S == P + {x};
      forall a | 0 <= a < |p| ensures p[a] != x {
        assert p[a] == s[a];
      }
    }
  }

  /**
   * Every sorted position names a node, no node is placed twice, and so at most all nodes are
   * placed.
   */
  lemma SortedDistinct(w: Workflow)
    ensures InRange(SortedIndices(w), |w.nodes|)
    ensures forall a, b :: 0 <= a < b < |SortedIndices(w)| ==> SortedIndices(w)[a] != SortedIndices(w)[b]
    ensures |SortedIndices(w)| <= |w.nodes|
  {
    BatchesInv(w);
    FlattenRange(w.nodes, Batches(w));
    DistinctBelow(SortedIndices(w), |w.nodes|);
  }

  /** Within one batch the nodes keep their `workflow.nodes` order. */
  lemma BatchesInOrder(w: Workflow)
    ensures forall k :: 0 <= k < |Batches(w)| ==> Increasing(Batches(w)[k])
  {
    BatchesInv(w);
  }

  /**
   * Every edge into a sorted node comes from a node placed in an earlier batch.
   */
  lemma DepsPlacedEarlier(w: Workflow, k: nat, j: nat, e: nat)
    requires k < |Batches(w)| && j < |Batches(w)[k]| && e < |w.edges|
    requires Batches(w)[k][j] < |w.nodes| && w.edges[e].target == w.nodes[Batches(w)[k][j]].id
    ensures w.edges[e].source in IdsOf(w.nodes, Flatten(Batches(w)[..k]))
  {
    BatchesInv(w);
    DepsSpec(w);
    var id := w.nodes[Batches(w)[k][j]].id;
    assert id in NodeIds(w.nodes);
    assert w.edges[e].source in Sources(w.edges, id);
  }

  /** When the sort stops early, no remaining node is ready: the rest are left out. */
  lemma SortStops(w: Workflow)
    ensures |SortedIndices(w)| == |w.nodes| ||
            forall i :: 0 <= i < |w.nodes| ==> !IsReady(w.nodes, Deps(w), IdsOf(w.nodes, SortedIndices(w)), i)
  {
    BatchesInv(w);
    SortedDistinct(w);
  }

  /** A node with an edge from an id that no node carries is never sorted. */
  lemma MissingSourceOmitted(w: Workflow, i: nat, e: nat)
    requires i < |w.nodes| && e < |w.edges|
    requires w.edges[e].target == w.nodes[i].id && w.edges[e].source !in NodeIds(w.nodes)
    ensures i !in SortedIndices(w)
  {
    if i in SortedIndices(w) {
      BatchesInv(w);
      var a :| 0 <= a < |SortedIndices(w)| && SortedIndices(w)[a] == i;
      FlattenMember(Batches(w), a);
      var k, j :| 0 <= k < |Batches(w)| && 0 <= j < |Batches(w)[k]| && Batches(w)[k][j] == i &&
                  |Flatten(Batches(w)[..k])| + j == a;
      DepsPlacedEarlier(w, k, j, e);
    }
  }

  /** The indices `a`, `a + 1`, ..., `b - 1`. */
  function Indices(a: nat, b: nat): (r: seq<nat>)
    ensures |r| == if a <= b then b - a else 0
    ensures forall j :: 0 <= j < |r| ==> r[j] == a + j
    decreases b - a
  {
    if b <= a then [] else [a] + Indices(a + 1, b)
  }

  lemma {:induction false} AllReadyFrom(nodes: seq<StudioNode>, deps: map<string, set<string>>, k: nat)
    requires k <= |nodes|
    requires forall i :: k <= i < |nodes| ==> DepsOf(deps, nodes[i].id) == {}
    ensures ReadyFrom(nodes, deps, {}, k) == Indices(k, |nodes|)
    decreases |nodes| - k
  {
    if k < |nodes| {
      AllReadyFrom(nodes, deps, k + 1);
      assert IsReady(nodes, deps, {}, k);
    }
  }

  /** Without edges, all nodes form a single batch in workflow order. */
  lemma NoEdgesOneBatch(w: Workflow)
    requires |w.edges| == 0 && |w.nodes| > 0
    ensures Batches(w) == [Indices(0, |w.nodes|)]
  {
    var nodes := w.nodes;
    var deps := Deps(w);
    DepsSpec(w);
    forall i | 0 <= i < |nodes| ensures DepsOf(deps, nodes[i].id) == {} {
      assert nodes[i].id in NodeIds(nodes);
      assert Sources(w.edges, nodes[i].id) == {};
    }
    AllReadyFrom(nodes, deps, 0);
    var ready := Ready(nodes, deps, {});
    var none: seq<seq<nat>> := [];
    assert Flatten(none) == [];
    FlattenSnoc(none, ready);
    assert none + [ready] == [ready];
    assert Batches(w) == Sorting(nodes, deps, {} + IdsOf(nodes, ready), [ready]);
    assert Sorting(nodes, deps, {} + IdsOf(nodes, ready), [ready]) == [ready];
  }

  // ---------------------------------------------------------------------------------------
  // Variables and steps

  /** `v${i}`. */
  function VarName(i: nat): string {
    "v" + NatToString(i)
  }

  /** Distinct positions get distinct variables. */
  lemma VarNameInjective(i: nat, j: nat)
    requires VarName(i) == VarName(j)
    ensures i == j
  {
    assert NatToString(i) == VarName(i)[1..];
    assert NatToString(j) == VarName(j)[1..];
    NatToStringValue(i);
    NatToStringValue(j);
  }

  /** `nodeToVar` after the nodes `ns` were visited: each id maps to its last position's variable. */
  function VarMap(ns: seq<StudioNode>): map<string, string> {
    if |ns| == 0 then map[]
    else VarMap(ns[..|ns| - 1])[ns[|ns| - 1].id := VarName(|ns| - 1)]
  }

  lemma {:induction false} VarMapKeys(ns: seq<StudioNode>)
    ensures VarMap(ns).Keys == NodeIds(ns)
  {
    if |ns| > 0 {
      VarMapKeys(ns[..|ns| - 1]);
      NodeIdsLast(ns);
    }
  }

  lemma {:induction false} VarMapLast(ns: seq<StudioNode>, j: nat)
    requires j < |ns| && forall j' :: j < j' < |ns| ==> ns[j'].id != ns[j].id
    ensures ns[j].id in VarMap(ns) && VarMap(ns)[ns[j].id] == VarName(j)
  {
    if j < |ns| - 1 {
      var p := ns[..|ns| - 1];
      assert p[j] == ns[j];
      assert forall j' :: j < j' < |p| ==> p[j'] == ns[j'];
      VarMapLast(p, j);
    }
  }

  /** Handles that feed a transform's image input: `"image"`, or none (`undefined` or `""`). */
  predicate IsImageInput(h: Option<string>) {
    h == Some("image") || h.None? || h == Some("")
  }

  /** The first edge into `id` on its image input. */
  function InputEdge(edges: seq<StudioEdge>, id: string): Option<StudioEdge> {
    FindFirst(edges, (e: StudioEdge) => e.target == id && IsImageInput(e.targetHandle))
  }

  /** The step the last node of `ns` emits; `ns` are the sorted nodes visited so far. */
  function StepFor(ns: seq<StudioNode>, edges: seq<StudioEdge>): Option<Step>
    requires |ns| > 0
  {
    var node := ns[|ns| - 1];
    var out := VarName(|ns| - 1);
    var vars := VarMap(ns);
    if node.kind == "input" then None
    else if node.kind == "generator" then Some(Generate(node.data.generatorName, node.data.params, out))
    else if node.kind == "transform" then
      match InputEdge(edges, node.id)
      case None => None
      case Some(e) =>
        if e.source in vars then Some(Transform(node.data.operation, node.data.params, vars[e.source], out))
        else None
    else None
  }

  function Opt<T>(o: Option<T>): seq<T> {
    match o
    case None => []
    case Some(x) => [x]
  }

  function Steps(ns: seq<StudioNode>, edges: seq<StudioEdge>): seq<Step> {
    if |ns| == 0 then [] else Steps(ns[..|ns| - 1], edges) + Opt(StepFor(ns, edges))
  }

  function SortedNodes(w: Workflow): (r: seq<StudioNode>)
    ensures |r| == |SortedIndices(w)|
  {
    SortedDistinct(w);
    seq(|SortedIndices(w)|, i requires 0 <= i < |SortedIndices(w)| => w.nodes[SortedIndices(w)[i]])
  }

  /** `workflowToPipeline`. */
  function WorkflowToPipeline(w: Workflow, templateId: string): Pipeline {
    Pipeline(templateId, Steps(SortedNodes(w), w.edges))
  }

  /** A generator node emits exactly its generate step, writing its own variable. */
  lemma GeneratorStep(ns: seq<StudioNode>, edges: seq<StudioEdge>)
    requires |ns| > 0 && ns[|ns| - 1].kind == "generator"
    ensures StepFor(ns, edges) ==
            Some(Generate(ns[|ns| - 1].data.generatorName, ns[|ns| - 1].data.params, VarName(|ns| - 1)))
  {
  }

  /** Input, save and unknown nodes emit nothing (they still take a variable). */
  lemma SilentNodes(ns: seq<StudioNode>, edges: seq<StudioEdge>)
    requires |ns| > 0 && ns[|ns| - 1].kind != "generator" && ns[|ns| - 1].kind != "transform"
    ensures StepFor(ns, edges) == None
    ensures ns[|ns| - 1].id in VarMap(ns) && VarMap(ns)[ns[|ns| - 1].id] == VarName(|ns| - 1)
  {
  }

  /**
   * A transform node emits a step exactly when its first image-input edge comes from a node
   * visited already; the step reads that node's variable and writes its own.
   */
  lemma TransformStep(ns: seq<StudioNode>, edges: seq<StudioEdge>)
    requires |ns| > 0 && ns[|ns| - 1].kind == "transform"
    ensures var node := ns[|ns| - 1];
            StepFor(ns, edges).Some? <==>
              InputEdge(edges, node.id).Some? && InputEdge(edges, node.id).value.source in NodeIds(ns)
    ensures var node := ns[|ns| - 1];
            StepFor(ns, edges).Some? ==>
              var src := InputEdge(edges, node.id).value.source;
              StepFor(ns, edges) ==
                Some(Transform(node.data.operation, node.data.params, VarMap(ns)[src], VarName(|ns| - 1)))
  {
    VarMapKeys(ns);
  }

  /** Each sorted node emits at most one step, in sorted order. */
  lemma {:induction false} StepsBound(ns: seq<StudioNode>, edges: seq<StudioEdge>)
    ensures |Steps(ns, edges)| <= |ns|
  {
    if |ns| > 0 {
      StepsBound(ns[..|ns| - 1], edges);
    }
  }

  function Out(s: Step): string {
    match s
    case Generate(_, _, out) => out
    case Transform(_, _, _, out) => out
  }

  lemma OutOfStepFor(ns: seq<StudioNode>, edges: seq<StudioEdge>)
    requires |ns| > 0 && StepFor(ns, edges).Some?
    ensures Out(StepFor(ns, edges).value) == VarName(|ns| - 1)
  {
  }

  lemma {:induction false} StepsOutsNamed(ns: seq<StudioNode>, edges: seq<StudioEdge>)
    ensures forall k :: 0 <= k < |Steps(ns, edges)| ==>
              exists i :: 0 <= i < |ns| && Out(Steps(ns, edges)[k]) == VarName(i)
  {
    if |ns| > 0 {
      var p := ns[..|ns| - 1];
      StepsOutsNamed(p, edges);
      var s := Steps(ns, edges);
      var q := Steps(p, edges);
      assert s == q + Opt(StepFor(ns, edges));
      forall k | 0 <= k < |s| ensures exists i :: 0 <= i < |ns| && Out(s[k]) == VarName(i) {
        if k < |q| {
          assert s[k] == q[k];
          var i :| 0 <= i < |p| && Out(q[k]) == VarName(i);
          assert i < |ns|;
        } else {
          OutOfStepFor(ns, edges);
          assert s[k] == StepFor(ns, edges).value;
          assert Out(s[k]) == VarName(|ns| - 1);
        }
      }
      assert forall k :: 0 <= k < |s| ==> exists i :: 0 <= i < |ns| && Out(s[k]) == VarName(i);
    } else {
      assert Steps(ns, edges) == [];
    }
  }

  lemma {:induction false} StepsOutsDistinct(ns: seq<StudioNode>, edges: seq<StudioEdge>)
    ensures forall a, b :: 0 <= a < b < |Steps(ns, edges)| ==> Out(Steps(ns, edges)[a]) != Out(Steps(ns, edges)[b])
  {
    if |ns| > 0 {
      var p := ns[..|ns| - 1];
      StepsOutsDistinct(p, edges);
      StepsOutsNamed(p, edges);
      var s := Steps(ns, edges);
      var q := Steps(p, edges);
      assert s == q + Opt(StepFor(ns, edges));
      forall a, b | 0 <= a < b < |s| ensures Out(s[a]) != Out(s[b]) {
        assert s[a] == q[a];
        if b < |q| {
          assert s[b] == q[b];
        } else {
          OutOfStepFor(ns, edges);
          assert s[b] == StepFor(ns, edges).value;
          var i :| 0 <= i < |p| && Out(q[a]) == VarName(i);
          if Out(s[a]) == Out(s[b]) {
            VarNameInjective(i, |ns| - 1);
          }
        }
      }
    }
  }

  /** Every step of a pipeline writes a variable no other step writes. */
  lemma PipelineOutsFresh(w: Workflow, templateId: string)
    ensures var steps := WorkflowToPipeline(w, templateId).steps;
            forall a, b :: 0 <= a < b < |steps| ==> Out(steps[a]) != Out(steps[b])
    ensures |WorkflowToPipeline(w, templateId).steps| <= |w.nodes|
    ensures WorkflowToPipeline(w, templateId).name == templateId
  {
    StepsOutsDistinct(SortedNodes(w), w.edges);
    StepsBound(SortedNodes(w), w.edges);
    SortedDistinct(w);
  }
}
