/** Dependency graphs between actions: the depth-first cycle search and the readiness
    classifier of iat/action_engine/dependency_resolver.py. */
module DependencyResolver {
  import opened Text
  import opened Wrappers

  // ---------- identifier lists ----------

  /** What a `depends_on` entry can hold: nothing, one string, a list, or something ignored. */
  datatype IdValues = Missing | One(text: string) | Many(items: seq<string>) | Unsupported

  function Items(values: IdValues): seq<string> {
    match values
    case Missing => []
    case One(text) => [text]
    case Many(items) => items
    case Unsupported => []
  }

  /** The first occurrence of every non-empty stripped item, in order. */
  function Deduplicated(items: seq<string>): seq<string> {
    if items == [] then []
    else
      var kept := Deduplicated(items[..|items| - 1]);
      var item := Strip(items[|items| - 1]);
      if item == "" || item in kept then kept else kept + [item]
  }

  ghost predicate Distinct<T>(s: seq<T>) {
    forall i, j :: 0 <= i < j < |s| ==> s[i] != s[j]
  }

  ghost function Elements<T>(s: seq<T>): set<T> { set x | x in s }

  lemma DeduplicatedNext(items: seq<string>, i: nat)
    requires i < |items|
    ensures var kept, item := Deduplicated(items[..i]), Strip(items[i]);
      Deduplicated(items[..i + 1]) == if item == "" || item in kept then kept else kept + [item]
  {
    assert items[..i + 1][..i] == items[..i];
  }

  method NormalizeIds(values: IdValues) returns (normalized: seq<string>)
    ensures normalized == Deduplicated(Items(values)) && Normalises(normalized, values)
  {
    var items := Items(values);
    normalized := [];
    var seen: set<string> := {};
    for i := 0 to |items|
      invariant normalized == Deduplicated(items[..i])
      invariant seen == Elements(normalized)
    {
      DeduplicatedNext(items, i);
      var item := Strip(items[i]);
      if item == "" || item in seen {
        continue;
      }
      normalized := normalized + [item];
      seen := seen + {item};
    }
    assert items[..|items|] == items;
    DeduplicatedNormalises(values);
  }

  predicate FirstAt(items: seq<string>, k: nat, id: string) {
    k < |items| && Strip(items[k]) == id && forall m :: 0 <= m < k ==> Strip(items[m]) != id
  }

  /** Earlier first occurrences stay earlier. */
  ghost predicate InOrder(kept: seq<string>, items: seq<string>) {
    forall i, j, a: nat, b: nat {:trigger kept[i], kept[j], FirstAt(items, a, kept[i]), FirstAt(items, b, kept[j])} ::
      0 <= i < j < |kept| && FirstAt(items, a, kept[i]) && FirstAt(items, b, kept[j]) ==> a < b
  }

  lemma {:induction false} NormalizingKeepsOrder(items: seq<string>)
    ensures InOrder(Deduplicated(items), items)
  {
    if items != [] {
      var n := |items| - 1;
      var front, kept := items[..n], Deduplicated(items);
      NormalizingKeepsOrder(front);
      NormalizingKeepsEachIdOnce(front);
      forall i, j, a: nat, b: nat |
        0 <= i < j < |kept| && FirstAt(items, a, kept[i]) && FirstAt(items, b, kept[j])
        ensures a < b
      {
        assert kept[i] in Deduplicated(front);
        var k :| 0 <= k < |front| && Strip(front[k]) == kept[i];
        assert Strip(items[k]) == kept[i];
        assert FirstAt(front, a, kept[i]);
        if b < n {
          assert kept[j] == Deduplicated(front)[j] by {
            assert Strip(front[b]) == kept[j];
          }
          assert FirstAt(front, b, kept[j]);
        }
      }
    }
  }

  /** Normalising keeps exactly the non-empty stripped identifiers, each once. */
  lemma {:induction false} NormalizingKeepsEachIdOnce(items: seq<string>)
    ensures Distinct(Deduplicated(items))
    ensures forall id :: id in Deduplicated(items) <==>
                         id != "" && exists k :: 0 <= k < |items| && Strip(items[k]) == id
  {
    if items != [] {
      var front := items[..|items| - 1];
      NormalizingKeepsEachIdOnce(front);
      forall id
        ensures id in Deduplicated(items) <==>
                id != "" && exists k :: 0 <= k < |items| && Strip(items[k]) == id
      {
        if id != "" && id in Deduplicated(front) {
          var k :| 0 <= k < |front| && Strip(front[k]) == id;
          assert items[k] == front[k];
        }
        if k :| 0 <= k < |items| - 1 && Strip(items[k]) == id {
          assert front[k] == items[k];
        }
      }
    }
  }

  // ---------- the graph ----------

  /** One action; `orchestration` is the nested `depends_on` entry when that key is present. */
  datatype ActionContext = ActionContext(actionId: string, orchestration: Option<IdValues>, dependsOn: IdValues)

  type Graph = map<string, seq<string>>

  function Dependencies(context: ActionContext): seq<string> {
    Deduplicated(Items(context.orchestration.GetOr(context.dependsOn)))
  }

  /** An edge between two known actions; dependencies on unknown ones are not followed. */
  ghost predicate Edge(g: Graph, a: string, b: string) {
    a in g && b in g && b in g[a]
  }

  ghost predicate IsPath(g: Graph, p: seq<string>) {
    && (forall k :: 0 <= k < |p| ==> p[k] in g)
    && (forall k :: 0 <= k < |p| - 1 ==> Edge(g, p[k], p[k + 1]))
  }

  ghost predicate IsCycle(g: Graph, p: seq<string>) {
    && |p| >= 2
    && p[0] == p[|p| - 1]
    && IsPath(g, p)
  }

  ghost predicate IsSimpleCycle(g: Graph, p: seq<string>) {
    IsCycle(g, p) && Distinct(p[..|p| - 1])
  }

  ghost predicate Acyclic(g: Graph) {
    forall p :: !IsCycle(g, p)
  }

  /** Every followed dependency of an element stands before it. */
  ghost predicate Topological(g: Graph, order: seq<string>) {
    forall k, d :: 0 <= k < |order| && order[k] in g && d in g[order[k]] && d in g ==> d in order[..k]
  }

  /** A path inside a topological order walks strictly towards its start. */
  lemma {:induction false} PathsDescend(g: Graph, order: seq<string>, p: seq<string>, at: nat)
    requires Topological(g, order)
    requires |p| >= 1 && IsPath(g, p)
    requires at < |order| && order[at] == p[0]
    ensures |p| >= 2 ==> p[|p| - 1] in order[..at]
  {
    if |p| >= 2 {
      assert Edge(g, p[0], p[1]);
      var next :| 0 <= next < at && order[next] == p[1];
      var rest := p[1..];
      assert IsPath(g, rest) by {
        forall k | 0 <= k < |rest| - 1 ensures Edge(g, rest[k], rest[k + 1]) {
          assert Edge(g, p[k + 1], p[k + 2]);
        }
      }
      PathsDescend(g, order, rest, next);
      assert rest[|rest| - 1] == p[|p| - 1];
    }
  }

  lemma TopologicalOrderExcludesCycles(g: Graph, order: seq<string>)
    requires Topological(g, order) && Distinct(order) && Elements(order) == g.Keys
    ensures Acyclic(g)
  {
    forall p ensures !IsCycle(g, p) {
      if IsCycle(g, p) {
        assert p[0] in Elements(order);
        var at :| 0 <= at < |order| && order[at] == p[0];
        PathsDescend(g, order, p, at);
        assert false;
      }
    }
  }

  // ---------- the cycle search ----------

  datatype CycleReport = CycleReport(valid: bool, actionCount: nat, cycles: seq<seq<string>>)

  /** The variables the nested `visit` closes over. */
  class CycleSearch {
    const graph: Graph
    var visiting: set<string>
    var visited: set<string>
    var stack: seq<string>
    var cycles: seq<seq<string>>
    var signatures: set<seq<string>>
    ghost var finished: seq<string>  // in the order they entered `visited`
    ghost var expanded: seq<string>  // in the order they entered `visiting`

    constructor (graph: Graph)
      ensures this.graph == graph && Valid()
      ensures stack == [] && cycles == [] && visiting == {} && visited == {}
    {
      this.graph := graph;
      visiting, visited, stack, cycles, signatures := {}, {}, [], [], {};
      finished, expanded := [], [];
    }

    ghost predicate Valid()
      reads this
    {
      && visiting == Elements(stack) && Distinct(stack) && IsPath(graph, stack)
      && visiting !! visited && visited <= graph.Keys
      && signatures == Elements(cycles) && Distinct(cycles)
      && (forall c :: c in cycles ==> IsSimpleCycle(graph, c))
      && visited == Elements(finished) && Distinct(finished)
      && (cycles == [] ==> Topological(graph, finished))
      && Distinct(expanded) && Elements(expanded) == visiting + visited
    }

    method StackIndex(node: string) returns (index: Option<nat>)
      ensures index.Some? ==> index.value < |stack| && stack[index.value] == node
      ensures index.None? ==> node !in stack
    {
      for k := 0 to |stack|
        invariant node !in stack[..k]
      {
        if stack[k] == node {
          return Some(k);
        }
      }
      return None;
    }

    method RecordCycle(node: string)
      requires Valid() && node in visiting
      requires Edge(graph, stack[|stack| - 1], node)
      modifies this`cycles, this`signatures
      ensures Valid() && cycles != [] && old(cycles) <= cycles
    {
      var start := StackIndex(node);
      var cycle: seq<string> := [node, node];
      if start.Some? {
        cycle := stack[start.value..] + [node];
        ClosingEdgeMakesCycle(graph, stack, start.value, node);
      } else {
        assert false;  // the ValueError fallback
      }
      if cycle !in signatures {
        cycles := cycles + [cycle];
        signatures := signatures + {cycle};
      }
    }

    /** Put `node` on the stack: its expansion begins. */
    method Enter(node: string)
      requires Valid() && node in graph && node !in visiting && node !in visited
      requires stack != [] ==> Edge(graph, stack[|stack| - 1], node)
      modifies this`visiting, this`stack, this`expanded
      ensures Valid()
      ensures stack == old(stack) + [node] && visiting == old(visiting) + {node}
    {
      visiting := visiting + {node};
      stack := stack + [node];
      expanded := expanded + [node];
    }

    /** Take `node` off the stack: all its known dependencies have been visited. */
    method Leave(node: string)
      requires Valid() && stack != [] && stack[|stack| - 1] == node
      requires cycles == [] ==> forall d :: d in graph[node] && d in graph ==> d in visited
      modifies this`visiting, this`stack, this`visited, this`finished
      ensures Valid()
      ensures stack == old(stack)[..|old(stack)| - 1]
      ensures visiting == old(visiting) - {node} && visited == old(visited) + {node}
    {
      assert node in graph;
      stack := stack[..|stack| - 1];
      visiting := visiting - {node};
      visited := visited + {node};
      finished := finished + [node];
      assert old(stack) == stack + [node];
    }

    method Visit(node: string)
      requires Valid() && node in graph
      requires stack != [] ==> Edge(graph, stack[|stack| - 1], node)
      modifies this
      ensures Valid()
      ensures stack == old(stack) && visiting == old(visiting) && old(visited) <= visited
      ensures old(cycles) <= cycles
      ensures node in visited || (node in visiting && cycles != [])
      decreases graph.Keys - visiting - visited
    {
      if node in visited {
        return;
      }
      if node in visiting {
        RecordCycle(node);
        return;
      }
      Enter(node);
      var dependencies := graph[node];
      for i := 0 to |dependencies|
        invariant Valid()
        invariant stack == old(stack) + [node] && visiting == old(visiting) + {node}
        invariant old(visited) <= visited && old(cycles) <= cycles
        invariant cycles == [] ==> forall k :: 0 <= k < i && dependencies[k] in graph ==> dependencies[k] in visited
      {
        if dependencies[i] in graph {
          assert node in old(graph.Keys - visiting - visited);
          Visit(dependencies[i]);
        }
      }
      Leave(node);
    }
  }

  lemma ClosingEdgeMakesCycle(g: Graph, stack: seq<string>, start: nat, node: string)
    requires IsPath(g, stack) && Distinct(stack)
    requires start < |stack| && stack[start] == node
    requires Edge(g, stack[|stack| - 1], node)
    ensures IsSimpleCycle(g, stack[start..] + [node])
  {
    var c := stack[start..] + [node];
    forall k | 0 <= k < |c| - 1 ensures Edge(g, c[k], c[k + 1]) {
      if k < |c| - 2 {
        assert Edge(g, stack[start + k], stack[start + k + 1]);
      }
    }
    assert c[..|c| - 1] == stack[start..];
  }

  /** The graph of a batch of contexts: later entries replace earlier ones under the same key. */
  function GraphOf(contexts: seq<Option<ActionContext>>): Graph {
    if contexts == [] then map[]
    else
      var g := GraphOf(contexts[..|contexts| - 1]);
      match contexts[|contexts| - 1]
      case None => g
      case Some(c) => if Strip(c.actionId) == "" then g else g[Strip(c.actionId) := Dependencies(c)]
  }

  ghost predicate IsFirstOccurrences(ids: seq<string>, items: seq<string>) {
    && Distinct(ids) && InOrder(ids, items)
    && forall id :: id in ids <==> id != "" && exists k :: 0 <= k < |items| && Strip(items[k]) == id
  }

  /** What a `depends_on` entry comes down to. */
  ghost predicate Normalises(ids: seq<string>, values: IdValues) {
    match values
    case Missing => ids == []
    case Unsupported => ids == []
    case One(text) => ids == if Strip(text) == "" then [] else [Strip(text)]
    case Many(items) => IsFirstOccurrences(ids, items)
  }

  lemma DeduplicatedNormalises(values: IdValues)
    ensures Normalises(Deduplicated(Items(values)), values)
  {
    if values.Many? {
      NormalizingKeepsEachIdOnce(values.items);
      NormalizingKeepsOrder(values.items);
    } else if values.One? {
      assert [values.text][..0] == [];
    }
  }

  ghost predicate Carries(context: Option<ActionContext>, id: string) {
    context.Some? && id != "" && Strip(context.value.actionId) == id
  }

  ghost predicate LastCarrier(contexts: seq<Option<ActionContext>>, k: nat, id: string) {
    k < |contexts| && Carries(contexts[k], id) && forall m :: k < m < |contexts| ==> !Carries(contexts[m], id)
  }

  /** Exactly the carried ids are actions. */
  lemma {:induction false} ActionsExactly(contexts: seq<Option<ActionContext>>, id: string)
    ensures id in GraphOf(contexts) <==> exists k :: 0 <= k < |contexts| && Carries(contexts[k], id)
  {
    if contexts != [] {
      var n := |contexts| - 1;
      var front := contexts[..n];
      ActionsExactly(front, id);
      assert forall k :: 0 <= k < n ==> front[k] == contexts[k];
      if id in GraphOf(contexts) && !Carries(contexts[n], id) {
        var k :| 0 <= k < n && Carries(front[k], id);
        assert Carries(contexts[k], id);
      }
    }
  }

  lemma {:induction false} LastCarrierDecides(contexts: seq<Option<ActionContext>>, k: nat, id: string)
    requires LastCarrier(contexts, k, id)
    ensures id in GraphOf(contexts) && GraphOf(contexts)[id] == Dependencies(contexts[k].value)
  {
    var n := |contexts| - 1;
    if k < n {
      assert !Carries(contexts[n], id);
      LastCarrierDecides(contexts[..n], k, id);
    }
  }

  /** And each depends on what the last context that carries it says: in its orchestration entry when that key is
      present, and beside it otherwise. */
  lemma DependenciesExactly(contexts: seq<Option<ActionContext>>, k: nat, id: string)
    requires LastCarrier(contexts, k, id)
    ensures var c := contexts[k].value;
      && id in GraphOf(contexts)
      && Normalises(GraphOf(contexts)[id], if c.orchestration.Some? then c.orchestration.value else c.dependsOn)
  {
    LastCarrierDecides(contexts, k, id);
    DeduplicatedNormalises(contexts[k].value.orchestration.GetOr(contexts[k].value.dependsOn));
  }

  /** Sound and complete: the report is valid exactly when the known actions have no cycle, every
      reported list is a simple cycle, none is reported twice, each action is expanded once. */
  method DetectDependencyCycles(contexts: seq<Option<ActionContext>>)
    returns (report: CycleReport, ghost expanded: seq<string>)
    ensures report.valid <==> Acyclic(GraphOf(contexts))
    ensures report.valid <==> report.cycles == []
    ensures forall c :: c in report.cycles ==> IsSimpleCycle(GraphOf(contexts), c)
    ensures Distinct(report.cycles)
    ensures report.actionCount == |GraphOf(contexts)|
    ensures Distinct(expanded) && Elements(expanded) == GraphOf(contexts).Keys
  {
    var graph: Graph := map[];
    var order: seq<string> := [];
    for i := 0 to |contexts|
      invariant graph == GraphOf(contexts[..i])
      invariant Elements(order) == graph.Keys
    {
      assert contexts[..i + 1][..i] == contexts[..i];
      if contexts[i].None? {
        continue;
      }
      var actionId := Strip(contexts[i].value.actionId);
      if actionId == "" {
        continue;
      }
      if actionId !in graph {
        order := order + [actionId];
      }
      var c := contexts[i].value;
      var dependencies := NormalizeIds(c.orchestration.GetOr(c.dependsOn));
      graph := graph[actionId := dependencies];
    }
    assert contexts[..|contexts|] == contexts;

    var search := new CycleSearch(graph);
    for i := 0 to |order|
      invariant search.Valid() && search.graph == graph && search.stack == []
      invariant fresh(search)
      invariant forall k :: 0 <= k < i ==> order[k] in search.visited
    {
      assert order[i] in Elements(order);
      search.Visit(order[i]);
    }
    forall a | a in graph.Keys ensures a in search.visited {
      assert a in Elements(order);
    }
    if search.cycles == [] {
      TopologicalOrderExcludesCycles(graph, search.finished);
    } else {
      assert IsSimpleCycle(graph, search.cycles[0]);
    }
    report := CycleReport(search.cycles == [], |graph|, search.cycles);
    expanded := search.expanded;
  }

  // ---------- readiness ----------

  datatype Status = DependencyInvalid | DependencyFailed | DependencyMissing | DependencyPending | DependencyReady

  datatype Resolution = Resolution(status: Status, completed: seq<string>, pending: seq<string>,
                                   failed: seq<string>, missing: seq<string>)

  function Keep(ids: seq<string>, test: string -> bool): (r: seq<string>)
    ensures forall id :: id in r <==> id in ids && test(id)
  {
    if ids == [] then []
    else
      var rest := Keep(ids[1..], test);
      if test(ids[0]) then [ids[0]] + rest else rest
  }

  function Resolve(actionId: string, dependencies: seq<string>, completed: set<string>, failed: set<string>,
                   known: Option<set<string>>): Resolution
  {
    if actionId != "" && actionId in dependencies then Resolution(DependencyInvalid, [], [], [], [])
    else
      var done := Keep(dependencies, d => d in completed);
      var bad := Keep(dependencies, d => d in failed);
      var missing := if known.None? then []
                     else Keep(dependencies, d => d !in known.value && d !in completed && d !in failed);
      var pending := Keep(dependencies, d => d !in completed && d !in failed && d !in missing);
      var status := if bad != [] then DependencyFailed
                    else if missing != [] then DependencyMissing
                    else if pending != [] then DependencyPending
                    else DependencyReady;
      Resolution(status, done, pending, bad, missing)
  }

  ghost predicate Ready(g: Graph, a: string, completed: set<string>) {
    a in g && Resolve(a, g[a], completed, {}, Some(g.Keys)).status == DependencyReady
  }

  /** A dependency that the caller does not know and that has not ended either way. */
  predicate Unknown(d: string, completed: set<string>, failed: set<string>, known: Option<set<string>>) {
    known.Some? && d !in known.value && d !in completed && d !in failed
  }

  /** Which status wins: itself first, then a failure, then an unknown dependency, then one that is not done. */
  lemma StatusExactly(actionId: string, dependencies: seq<string>, completed: set<string>, failed: set<string>,
                      known: Option<set<string>>)
    ensures var status := Resolve(actionId, dependencies, completed, failed, known).status;
      var self := actionId != "" && actionId in dependencies;
      var anyFailed := exists d :: d in dependencies && d in failed;
      var anyUnknown := exists d :: d in dependencies && Unknown(d, completed, failed, known);
      && (status == DependencyInvalid <==> self)
      && (status == DependencyFailed <==> !self && anyFailed)
      && (status == DependencyMissing <==> !self && !anyFailed && anyUnknown)
      && (status == DependencyPending
        <==> !self && !anyFailed && !anyUnknown && exists d :: d in dependencies && d !in completed)
  {
    var r := Resolve(actionId, dependencies, completed, failed, known);
    if r.status == DependencyFailed {
      assert r.failed[0] in r.failed;
    } else if r.status == DependencyMissing {
      assert r.missing[0] in r.missing;
      assert Unknown(r.missing[0], completed, failed, known);
    } else if r.status == DependencyPending {
      assert r.pending[0] in r.pending;
    }
    if !(actionId != "" && actionId in dependencies) {
      forall d | d in dependencies
        ensures (d in failed ==> d in r.failed) && (Unknown(d, completed, failed, known) ==> d in r.missing)
      {
      }
      forall d | d in dependencies && r.failed == [] && r.missing == [] && r.pending == [] ensures d in completed {
        assert d !in r.failed && d !in r.missing && d !in r.pending;
      }
    }
  }

  /** Which dependencies stand under which heading, and each of distinct ones once and in its place. */
  lemma HeadingsExactly(actionId: string, dependencies: seq<string>, completed: set<string>, failed: set<string>,
                        known: Option<set<string>>, d: string)
    ensures var r := Resolve(actionId, dependencies, completed, failed, known);
      var listed := d in dependencies && (actionId == "" || actionId !in dependencies);
      && (d in r.completed <==> listed && d in completed)
      && (d in r.failed <==> listed && d in failed)
      && (d in r.missing <==> listed && d !in completed && d !in failed && known.Some? && d !in known.value)
      && (d in r.pending <==> listed && d !in completed && d !in failed && (known.None? || d in known.value))
    ensures var r := Resolve(actionId, dependencies, completed, failed, known);
      Distinct(dependencies) ==>
        forall heading :: heading in [r.completed, r.failed, r.missing, r.pending] ==>
          Distinct(heading) && SameOrder(heading, dependencies)
  {
    if Distinct(dependencies) && !(actionId != "" && actionId in dependencies) {
      KeepKeepsOrder(dependencies, x => x in completed);
      KeepKeepsOrder(dependencies, x => x in failed);
      KeepKeepsOrder(dependencies, x => Unknown(x, completed, failed, known));
      var r := Resolve(actionId, dependencies, completed, failed, known);
      KeepKeepsOrder(dependencies, x => x !in completed && x !in failed && x !in r.missing);
      if known.Some? {
        KeepKeepsOrder(dependencies, x => x !in known.value && x !in completed && x !in failed);
      }
    }
  }

  /** Every dependency is listed, and under one heading only unless it is reported both completed and failed. */
  lemma EveryDependencyIsListed(actionId: string, dependencies: seq<string>, completed: set<string>,
                                failed: set<string>,
                                known: Option<set<string>>, d: string)
    requires !(actionId != "" && actionId in dependencies)
    ensures var r := Resolve(actionId, dependencies, completed, failed, known);
      && (d in dependencies <==> d in r.completed || d in r.failed || d in r.missing || d in r.pending)
      && !(d in r.pending && (d in r.completed || d in r.failed || d in r.missing))
      && !(d in r.missing && (d in r.completed || d in r.failed))
      && (d in r.completed && d in r.failed ==> d in completed && d in failed)
  {
    HeadingsExactly(actionId, dependencies, completed, failed, known, d);
  }

  /** Every id of the one list that is also in the other stands there in the same order. */
  ghost predicate SameOrder(kept: seq<string>, ids: seq<string>) {
    forall i, j, a, b {:trigger kept[i], kept[j], ids[a], ids[b]} ::
      0 <= i < j < |kept| && 0 <= a < |ids| && 0 <= b < |ids| && ids[a] == kept[i] && ids[b] == kept[j] ==> a < b
  }

  /** A kept id other than the first was kept of the rest. */
  lemma KeptOfTail(ids: seq<string>, test: string -> bool, i: nat, a: nat)
    requires Distinct(ids) && i < |Keep(ids, test)| && a < |ids| && ids[a] == Keep(ids, test)[i]
    requires test(ids[0]) ==> i > 0
    ensures var skip := if test(ids[0]) then 1 else 0;
      && a > 0 && i - skip < |Keep(ids[1..], test)| && Keep(ids[1..], test)[i - skip] == ids[1..][a - 1]
  {
    var rest := Keep(ids[1..], test);
    var k := if test(ids[0]) then i - 1 else i;
    assert rest[k] in rest && rest[k] in ids[1..];
  }

  lemma {:induction false} KeptInOrder(ids: seq<string>, test: string -> bool, i: nat, j: nat, a: nat, b: nat)
    requires Distinct(ids) && i < j < |Keep(ids, test)| && a < |ids| && b < |ids|
    requires ids[a] == Keep(ids, test)[i] && ids[b] == Keep(ids, test)[j]
    ensures a < b
  {
    var skip := if test(ids[0]) then 1 else 0;
    KeptOfTail(ids, test, j, b);
    if i >= skip {
      KeptOfTail(ids, test, i, a);
      KeptInOrder(ids[1..], test, i - skip, j - skip, a - 1, b - 1);
    }
  }

  lemma {:induction false} KeptOnce(ids: seq<string>, test: string -> bool)
    requires Distinct(ids)
    ensures Distinct(Keep(ids, test))
  {
    if ids != [] {
      KeptOnce(ids[1..], test);
      assert ids[0] !in Keep(ids[1..], test);
    }
  }

  /** Keeping some of distinct ids keeps each once, and in their order. */
  lemma KeepKeepsOrder(ids: seq<string>, test: string -> bool)
    requires Distinct(ids)
    ensures Distinct(Keep(ids, test)) && SameOrder(Keep(ids, test), ids)
  {
    KeptOnce(ids, test);
    var kept := Keep(ids, test);
    forall i, j, a, b |
      0 <= i < j < |kept| && 0 <= a < |ids| && 0 <= b < |ids| && ids[a] == kept[i] && ids[b] == kept[j]
      ensures a < b
    {
      KeptInOrder(ids, test, i, j, a, b);
    }
  }

  /** Ready means exactly: not its own dependency, and every dependency completed and none failed. */
  lemma ReadyExactly(actionId: string, dependencies: seq<string>, completed: set<string>, failed: set<string>,
                     known: Option<set<string>>)
    ensures Resolve(actionId, dependencies, completed, failed, known).status == DependencyReady
       <==> !(actionId != "" && actionId in dependencies)
            && forall d :: d in dependencies ==> d in completed && d !in failed
  {
    var r := Resolve(actionId, dependencies, completed, failed, known);
    if r.status != DependencyReady && !(actionId != "" && actionId in dependencies) {
      if r.failed != [] {
        assert r.failed[0] in r.failed;
      } else if r.missing != [] {
        assert r.missing[0] in r.missing;
      } else {
        assert r.pending[0] in r.pending;
      }
    }
    if r.status == DependencyReady {
      forall d | d in dependencies ensures d in completed && d !in failed {
        assert d !in r.failed && d !in r.missing && d !in r.pending;
      }
    }
  }

  /** Completing more actions never takes readiness away. */
  lemma ReadyStaysReady(actionId: string, dependencies: seq<string>, completed: set<string>, later: set<string>,
                        failed: set<string>, known: Option<set<string>>)
    requires completed <= later
    requires Resolve(actionId, dependencies, completed, failed, known).status == DependencyReady
    ensures Resolve(actionId, dependencies, later, failed, known).status == DependencyReady
  {
    ReadyExactly(actionId, dependencies, completed, failed, known);
    ReadyExactly(actionId, dependencies, later, failed, known);
  }

  // ---------- no scheduling deadlock ----------

  /** Every dependency names a known action. */
  ghost predicate Closed(g: Graph) {
    forall a, d :: a in g && d in g[a] ==> d in g
  }

  ghost predicate Progresses(g: Graph) {
    forall completed: set<string> :: completed < g.Keys ==> exists a :: a !in completed && Ready(g, a, completed)
  }

  lemma {:induction false} DistinctFits<T>(s: seq<T>, domain: set<T>)
    requires Distinct(s) && Elements(s) <= domain
    ensures |s| <= |domain|
  {
    if s != [] {
      var last := s[|s| - 1];
      var front := s[..|s| - 1];
      assert last in Elements(s);
      assert Elements(front) <= domain - {last} by {
        forall x | x in front ensures x in domain && x != last { assert x in Elements(s); }
      }
      DistinctFits(front, domain - {last});
    }
  }

  lemma ExtendPath(g: Graph, p: seq<string>, next: string)
    requires IsPath(g, p) && p != [] && Edge(g, p[|p| - 1], next)
    ensures IsPath(g, p + [next])
  {
    var longer := p + [next];
    forall k | 0 <= k < |longer| - 1 ensures Edge(g, longer[k], longer[k + 1]) {
      if k < |p| - 1 {
        assert Edge(g, p[k], p[k + 1]);
      }
    }
  }

  ghost predicate Stuck(g: Graph, completed: set<string>) {
    forall a {:trigger Ready(g, a, completed)} :: a !in completed ==> !Ready(g, a, completed)
  }

  /** An incomplete action that is not ready waits for another incomplete one. */
  lemma UnreadyWaits(g: Graph, completed: set<string>, a: string) returns (d: string)
    requires Closed(g) && Acyclic(g)
    requires Stuck(g, completed) && a in g && a !in completed
    ensures Edge(g, a, d) && d !in completed
  {
    assert !Ready(g, a, completed);
    ReadyExactly(a, g[a], completed, {}, Some(g.Keys));
    if a in g[a] {
      assert Edge(g, a, a);
      assert IsCycle(g, [a, a]);
      assert false;
    }
    d :| d in g[a] && d !in completed;
  }

  /** Where nothing incomplete is ready, incomplete actions lead to one another for ever. */
  lemma {:induction false} StuckWalk(g: Graph, completed: set<string>, start: string, n: nat) returns (p: seq<string>)
    requires Closed(g) && start in g && start !in completed
    requires Acyclic(g) && Stuck(g, completed)
    ensures |p| == n + 1 && IsPath(g, p) && p[n] !in completed
  {
    if n == 0 {
      p := [start];
    } else {
      var shorter := StuckWalk(g, completed, start, n - 1);
      var d := UnreadyWaits(g, completed, shorter[n - 1]);
      ExtendPath(g, shorter, d);
      p := shorter + [d];
    }
  }

  lemma LongPathsRepeat(g: Graph, p: seq<string>)
    requires IsPath(g, p) && |p| > |g.Keys|
    ensures !Acyclic(g)
  {
    if Distinct(p) {
      assert Elements(p) <= g.Keys;
      DistinctFits(p, g.Keys);
    }
    var i, j :| 0 <= i < j < |p| && p[i] == p[j];
    var c := p[i..j + 1];
    forall k | 0 <= k < |c| - 1 ensures Edge(g, c[k], c[k + 1]) {
      assert Edge(g, p[i + k], p[i + k + 1]);
    }
    assert IsCycle(g, c);
  }

  lemma SomeIncompleteReady(g: Graph, completed: set<string>, start: string) returns (a: string)
    requires Closed(g) && Acyclic(g)
    requires start in g && start !in completed
    ensures a !in completed && Ready(g, a, completed)
  {
    if Stuck(g, completed) {
      var p := StuckWalk(g, completed, start, |g.Keys|);
      LongPathsRepeat(g, p);
      assert false;
    }
    a :| a !in completed && Ready(g, a, completed);
  }

  lemma AcyclicProgresses(g: Graph)
    requires Closed(g) && Acyclic(g)
    ensures Progresses(g)
  {
    forall completed: set<string> | completed < g.Keys
      ensures exists a :: a !in completed && Ready(g, a, completed)
    {
      assert !(g.Keys <= completed);
      var start :| start in g.Keys && start !in completed;
      var a := SomeIncompleteReady(g, completed, start);
    }
  }

  lemma CycleBlocks(g: Graph, p: seq<string>)
    requires IsCycle(g, p)
    ensures !Progresses(g)
  {
    var completed := g.Keys - Elements(p);
    assert p[0] in g.Keys && p[0] in Elements(p);
    forall a | a !in completed ensures !Ready(g, a, completed) {
      if a in g {
        var k :| 0 <= k < |p| && p[k] == a;
        var next := if k == |p| - 1 then p[1] else p[k + 1];
        var at := if k == |p| - 1 then 0 else k;
        assert Edge(g, p[at], p[at + 1]);
        assert next in Elements(p);
        ReadyExactly(a, g[a], completed, {}, Some(g.Keys));
      }
    }
    assert completed < g.Keys;
  }

  /** Among known dependencies, an acyclic graph is exactly one that can always go on. */
  lemma NoDeadlockExactlyWhenAcyclic(g: Graph)
    requires Closed(g)
    ensures Acyclic(g) <==> Progresses(g)
  {
    if Acyclic(g) {
      AcyclicProgresses(g);
    } else {
      var p :| IsCycle(g, p);
      CycleBlocks(g, p);
    }
  }

  /** Picks are made one at a time, each incomplete and ready when its turn comes. */
  ghost predicate Schedule(g: Graph, done: set<string>, picks: seq<string>) {
    forall k :: 0 <= k < |picks| ==>
      && picks[k] !in done + Elements(picks[..k])
      && Ready(g, picks[k], done + Elements(picks[..k]))
  }

  lemma ExtendSchedule(g: Graph, done: set<string>, picks: seq<string>, a: string)
    requires Schedule(g, done, picks)
    requires a !in done + Elements(picks) && Ready(g, a, done + Elements(picks))
    ensures Schedule(g, done, picks + [a])
  {
    var longer := picks + [a];
    forall k | 0 <= k < |longer|
      ensures longer[k] !in done + Elements(longer[..k]) && Ready(g, longer[k], done + Elements(longer[..k]))
    {
      assert longer[..k] == picks[..k];
      assert picks[..|picks|] == picks;
    }
  }

  lemma PicksDistinct(g: Graph, done: set<string>, picks: seq<string>)
    requires Schedule(g, done, picks)
    ensures Distinct(picks) && Elements(picks) <= g.Keys - done
  {
    forall i, j | 0 <= i < j < |picks| ensures picks[i] != picks[j] {
      assert picks[i] in picks[..j];
    }
  }

  /** However the ready actions are picked, a schedule is short and only stops when all is done. */
  lemma EveryScheduleFinishes(g: Graph, done: set<string>, picks: seq<string>)
    requires Closed(g) && Acyclic(g)
    requires done <= g.Keys && Schedule(g, done, picks)
    ensures |picks| <= |g.Keys - done|
    ensures done + Elements(picks) == g.Keys || exists a :: Schedule(g, done, picks + [a])
  {
    PicksDistinct(g, done, picks);
    DistinctFits(picks, g.Keys - done);
    var completed := done + Elements(picks);
    if start :| start in g && start !in completed {
      var a := SomeIncompleteReady(g, completed, start);
      ExtendSchedule(g, done, picks, a);
    }
  }
}
