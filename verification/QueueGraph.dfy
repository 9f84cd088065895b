/** Dependency graphs of queue items: normalisation of references, depth-first
    cycle search, and wave numbers. */
module QueueGraph {
  import opened Common

  type Graph = map<string, seq<string>>

  datatype Node = Node(id: string, slug: string, dependsOn: seq<string>)

  ghost predicate Edge(g: Graph, a: string, b: string) {
    a in g && b in g[a]
  }

  ghost predicate Path(g: Graph, p: seq<string>) {
    p != [] && forall i :: 0 <= i < |p| - 1 ==> Edge(g, p[i], p[i + 1])
  }

  ghost predicate IsCycle(g: Graph, p: seq<string>) {
    Path(g, p) && |p| >= 2 && p[0] == p[|p| - 1]
  }

  ghost predicate Acyclic(g: Graph) {
    forall p :: !IsCycle(g, p)
  }

  /** Every dependency names an item. */
  ghost predicate Closed(g: Graph) {
    forall a, b :: Edge(g, a, b) ==> b in g
  }

  // ---- Topological orders ----

  ghost predicate Distinct(s: seq<string>) {
    forall i, j :: 0 <= i < j < |s| ==> s[i] != s[j]
  }

  /** Each listed node comes after all its dependencies. */
  ghost predicate Topological(g: Graph, order: seq<string>) {
    && Distinct(order)
    && forall i, b :: 0 <= i < |order| && Edge(g, order[i], b) ==> b in order[..i]
  }

  lemma {:induction false} PathDescends(g: Graph, order: seq<string>, p: seq<string>, i: nat)
    requires Topological(g, order) && Path(g, p) && i < |order| && p[0] == order[i]
    ensures exists j :: 0 <= j <= i && order[j] == p[|p| - 1] && (|p| > 1 ==> j < i)
    ensures |p| - 1 <= i
    decreases |p|
  {
    if |p| == 1 {
      assert order[i] == p[|p| - 1];
    } else {
      assert Edge(g, p[0], p[1]);
      var k :| 0 <= k < i && order[k] == p[1];
      var rest := p[1..];
      assert forall x :: 0 <= x < |rest| ==> rest[x] == p[x + 1];
      PathDescends(g, order, rest, k);
    }
  }

  lemma TopologicalIsAcyclic(g: Graph, order: seq<string>)
    requires Topological(g, order) && forall a :: a in g ==> a in order
    ensures Acyclic(g)
  {
    forall p | IsCycle(g, p)
      ensures false
    {
      assert Edge(g, p[0], p[1]);
      var i :| 0 <= i < |order| && order[i] == p[0];
      PathDescends(g, order, p, i);
    }
  }

  // ---- Cycle search ----

  /** The stack is a path that leads to the node being visited. */
  ghost predicate StackLeadsTo(g: Graph, stack: seq<string>, id: string) {
    stack != [] ==> Path(g, stack + [id])
  }

  ghost predicate Explored(g: Graph, visited: set<string>, order: seq<string>) {
    Topological(g, order) && visited == set a | a in order
  }

  /** The depth-first visit: it either closes a cycle through the stack or ends
      with the node explored. The ghost order lists nodes as they are finished. */
  method Visit(g: Graph, id: string, visited: set<string>, stack: seq<string>, ghost order: seq<string>)
    returns (cycle: Option<seq<string>>, visited': set<string>, ghost order': seq<string>)
    requires StackLeadsTo(g, stack, id) && Distinct(stack) && (forall a :: a in stack ==> a in g && a !in visited)
    requires Explored(g, visited, order)
    ensures cycle.Some? ==> IsCycle(g, cycle.value)
    ensures cycle.None? ==> Explored(g, visited', order') && visited <= visited' && id in visited'
    ensures cycle.None? ==> forall a :: a in stack ==> a !in visited'
    decreases g.Keys - (set a | a in stack), 1
  {
    hide Explored, IsCycle;
    visited', order' := visited, order;
    var at := 0;
    while at < |stack| && stack[at] != id
      invariant at <= |stack| && id !in stack[..at]
    {
      at := at + 1;
    }
    if at < |stack| {
      cycle := Some(stack[at..] + [id]);
      CloseCycle(g, stack, id, at);
      return;
    }
    if id in visited {
      return None, visited', order';
    }
    if id in g {
      assert (set a | a in stack + [id]) == (set a | a in stack) + {id};
      cycle, visited', order' := VisitDependencies(g, id, visited, stack + [id], order);
      if cycle.Some? {
        return;
      }
    }
    FinishNode(g, visited', order', id);
    visited', order' := visited' + {id}, order' + [id];
    cycle := None;
  }

  /** A node whose dependencies are all listed may be listed next. */
  lemma FinishNode(g: Graph, visited: set<string>, order: seq<string>, id: string)
    requires Explored(g, visited, order) && id !in visited
    requires id in g ==> forall b :: b in g[id] ==> b in order
    ensures Explored(g, visited + {id}, order + [id])
  {
    var longer := order + [id];
    forall i, b | 0 <= i < |longer| && Edge(g, longer[i], b)
      ensures b in longer[..i]
    {
      assert longer[..i] == order[..i];
    }
  }

  lemma CloseCycle(g: Graph, stack: seq<string>, id: string, at: nat)
    requires StackLeadsTo(g, stack, id) && at < |stack| && stack[at] == id
    ensures IsCycle(g, stack[at..] + [id])
  {
    var p := stack[at..] + [id];
    forall i | 0 <= i < |p| - 1
      ensures Edge(g, p[i], p[i + 1])
    {
      assert p[i] == (stack + [id])[at + i] && p[i + 1] == (stack + [id])[at + i + 1];
    }
  }

  method VisitDependencies(g: Graph, id: string, visited: set<string>, stack: seq<string>, ghost order: seq<string>)
    returns (cycle: Option<seq<string>>, visited': set<string>, ghost order': seq<string>)
    requires stack != [] && stack[|stack| - 1] == id && id in g
    requires Path(g, stack) && Distinct(stack) && (forall a :: a in stack ==> a in g && a !in visited)
    requires Explored(g, visited, order)
    ensures cycle.Some? ==> IsCycle(g, cycle.value)
    ensures cycle.None? ==> Explored(g, visited', order') && visited <= visited'
    ensures cycle.None? ==> (forall a :: a in stack ==> a !in visited') && forall b :: b in g[id] ==> b in order'
    decreases g.Keys - (set a | a in stack), 2
  {
    visited', order' := visited, order;
    for i := 0 to |g[id]|
      invariant Explored(g, visited', order') && visited <= visited'
      invariant forall a :: a in stack ==> a !in visited'
      invariant forall j :: 0 <= j < i ==> g[id][j] in visited'
    {
      assert Path(g, stack + [g[id][i]]);
      cycle, visited', order' := Visit(g, g[id][i], visited', stack, order');
      if cycle.Some? {
        return;
      }
    }
    cycle := None;
  }

  /** The graph the search runs on: item ids to dependency lists. */
  function GraphOf(items: seq<Node>): Graph {
    if items == [] then map[]
    else GraphOf(items[..|items| - 1])[items[|items| - 1].id := items[|items| - 1].dependsOn]
  }

  lemma {:induction false} GraphOfKeys(items: seq<Node>)
    ensures forall a :: a in GraphOf(items) <==> exists i :: 0 <= i < |items| && items[i].id == a
  {
    if items != [] {
      var front := items[..|items| - 1];
      GraphOfKeys(front);
      assert forall i :: 0 <= i < |front| ==> items[i] == front[i];
    }
  }

  ghost predicate ListsAll(items: seq<Node>, order: seq<string>) {
    forall i :: 0 <= i < |items| ==> items[i].id in order
  }

  /** The search finds a cycle exactly when there is one, and returns a real one. */
  method DependencyGraphCycle(items: seq<Node>) returns (cycle: Option<seq<string>>, ghost order: seq<string>)
    ensures cycle.None? <==> Acyclic(GraphOf(items))
    ensures cycle.Some? ==> IsCycle(GraphOf(items), cycle.value)
    ensures cycle.None? ==> Topological(GraphOf(items), order) && ListsAll(items, order)
  {
    var g := GraphOf(items);
    GraphOfKeys(items);
    var visited: set<string> := {};
    order := [];
    for i := 0 to |items|
      invariant Explored(g, visited, order)
      invariant forall j :: 0 <= j < i ==> items[j].id in visited
    {
      cycle, visited, order := Visit(g, items[i].id, visited, [], order);
      if cycle.Some? {
        return;
      }
    }
    TopologicalIsAcyclic(g, order);
    cycle := None;
  }

  // ---- Waves ----

  /** Every wave number is one more than the largest among the dependencies. */
  ghost predicate IsWaves(g: Graph, w: map<string, nat>) {
    forall a :: a in w ==> WaveOk(g, w, a)
  }

  ghost predicate WaveOk(g: Graph, w: map<string, nat>, a: string)
    requires a in w
  {
    && (forall b :: Edge(g, a, b) ==> b in w && w[b] < w[a])
    && (w[a] > 0 ==> exists b :: Edge(g, a, b) && b in w && w[b] + 1 == w[a])
  }

  /** A node of wave n starts a dependency chain of n edges, and none longer. */
  lemma WaveIsLongestChain(g: Graph, w: map<string, nat>, a: string)
    requires IsWaves(g, w) && a in w
    ensures exists p :: Path(g, p) && p[0] == a && |p| == w[a] + 1
    ensures forall p :: Path(g, p) && p[0] == a ==> |p| <= w[a] + 1
  {
    hide IsWaves;
    var p := LongestChain(g, w, a);
    forall p | Path(g, p) && p[0] == a
      ensures |p| <= w[a] + 1
    {
      ChainIsShort(g, w, p);
    }
  }

  lemma {:induction false} LongestChain(g: Graph, w: map<string, nat>, a: string) returns (p: seq<string>)
    requires IsWaves(g, w) && a in w
    ensures Path(g, p) && p[0] == a && |p| == w[a] + 1
    decreases w[a]
  {
    hide Path;
    assert WaveOk(g, w, a);
    if w[a] == 0 {
      p := [a];
      SingleNode(g, a);
    } else {
      var b :| Edge(g, a, b) && b in w && w[b] + 1 == w[a];
      var rest := LongestChain(g, w, b);
      p := [a] + rest;
      StepFirst(g, a, rest);
    }
  }

  lemma SingleNode(g: Graph, a: string)
    ensures Path(g, [a])
  {
  }

  lemma StepFirst(g: Graph, a: string, rest: seq<string>)
    requires Path(g, rest) && Edge(g, a, rest[0])
    ensures Path(g, [a] + rest)
  {
    var p := [a] + rest;
    forall i | 0 <= i < |p| - 1
      ensures Edge(g, p[i], p[i + 1])
    {
      assert i > 0 ==> p[i] == rest[i - 1] && p[i + 1] == rest[i];
    }
  }

  lemma FirstStep(g: Graph, p: seq<string>)
    requires Path(g, p) && |p| > 1
    ensures Edge(g, p[0], p[1]) && Path(g, p[1..])
  {
    var rest := p[1..];
    forall i | 0 <= i < |rest| - 1
      ensures Edge(g, rest[i], rest[i + 1])
    {
      assert rest[i] == p[i + 1] && rest[i + 1] == p[i + 2];
    }
  }

  lemma {:induction false} ChainIsShort(g: Graph, w: map<string, nat>, p: seq<string>)
    requires IsWaves(g, w) && Path(g, p) && p[0] in w
    ensures |p| <= w[p[0]] + 1
    decreases |p|
  {
    if |p| > 1 {
      FirstStep(g, p);
      assert WaveOk(g, w, p[0]);
      hide Path;
      ChainIsShort(g, w, p[1..]);
    }
  }

  /** The wave lies right above the deepest of the node's dependencies. */
  ghost predicate RightAbove(g: Graph, w: map<string, nat>, a: string, wave: nat, deepest: string) {
    && (forall b :: Edge(g, a, b) ==> b in w && w[b] < wave)
    && (wave > 0 ==> Edge(g, a, deepest) && deepest in w && w[deepest] + 1 == wave)
  }

  /** Recording the computed wave keeps the memo right, and cannot change an entry. */
  lemma RecordWave(g: Graph, w: map<string, nat>, a: string, wave: nat, deepest: string)
    requires IsWaves(g, w) && RightAbove(g, w, a, wave, deepest)
    ensures IsWaves(g, w[a := wave]) && (a in w ==> w[a] == wave)
  {
    hide RightAbove, Edge;
    if a in w {
      assert WaveOk(g, w, a);
      WaveIsDetermined(g, w, a, wave, deepest);
      assert w[a := wave] == w;
    } else {
      NewWaveOk(g, w, a, wave, deepest);
      forall c | c in w
        ensures WaveOk(g, w[a := wave], c)
      {
        assert WaveOk(g, w, c);
        WaveOkStays(g, w, a, wave, c);
      }
    }
  }

  lemma WaveIsDetermined(g: Graph, w: map<string, nat>, a: string, wave: nat, deepest: string)
    requires a in w && WaveOk(g, w, a) && RightAbove(g, w, a, wave, deepest)
    ensures w[a] == wave
  {
    hide Edge;
    if w[a] > 0 {
      var b :| Edge(g, a, b) && b in w && w[b] + 1 == w[a];
    }
  }

  lemma NewWaveOk(g: Graph, w: map<string, nat>, a: string, wave: nat, deepest: string)
    requires a !in w && RightAbove(g, w, a, wave, deepest)
    ensures WaveOk(g, w[a := wave], a)
  {
    hide Edge;
    var w' := w[a := wave];
    if wave > 0 {
      assert Edge(g, a, deepest) && deepest in w' && w'[deepest] + 1 == w'[a];
    }
  }

  lemma WaveOkStays(g: Graph, w: map<string, nat>, a: string, wave: nat, c: string)
    requires a !in w && c in w && WaveOk(g, w, c)
    ensures WaveOk(g, w[a := wave], c)
  {
    hide Edge;
    var w' := w[a := wave];
    assert forall b :: Edge(g, c, b) ==> b in w' && w'[b] == w[b];
    if w[c] > 0 {
      var b :| Edge(g, c, b) && b in w && w[b] + 1 == w[c];
      assert Edge(g, c, b) && b in w' && w'[b] + 1 == w'[c];
    }
  }

  ghost predicate Extends(before: map<string, nat>, after: map<string, nat>) {
    forall a :: a in before ==> a in after && after[a] == before[a]
  }

  /** One memoised evaluation; an order of the acyclic graph bounds the recursion. */
  method WaveIndex(g: Graph, id: string, memo: map<string, nat>, ghost order: seq<string>, ghost rank: nat)
    returns (wave: nat, memo': map<string, nat>)
    requires IsWaves(g, memo) && Topological(g, order)
    requires rank < |order| && order[rank] == id
    ensures IsWaves(g, memo') && id in memo' && memo'[id] == wave && Extends(memo, memo')
    decreases rank, 1
  {
    if id in memo {
      return memo[id], memo;
    }
    memo', wave := memo, 0;
    ghost var deepest := id;
    if id in g {
      wave, memo', deepest := DependencyWaves(g, id, memo, order, rank);
    }
    RecordWave(g, memo', id, wave, deepest);
    memo' := memo'[id := wave];
  }

  /** The wave lies above the first i dependencies, right above the deepest. */
  ghost predicate AboveDependencies(deps: seq<string>, i: nat, w: map<string, nat>, wave: nat, deepest: string)
    requires i <= |deps|
  {
    && (forall j :: 0 <= j < i ==> deps[j] in w && w[deps[j]] < wave)
    && (wave > 0 ==> deepest in deps && deepest in w && w[deepest] + 1 == wave)
  }

  lemma OneDependencyMore(
    deps: seq<string>, i: nat, w: map<string, nat>, wave: nat, deepest: string, w': map<string, nat>)
    requires i < |deps| && AboveDependencies(deps, i, w, wave, deepest)
    requires Extends(w, w') && deps[i] in w'
    ensures
      var depth := w'[deps[i]];
      AboveDependencies(deps, i + 1, w', if depth + 1 > wave then depth + 1 else wave,
                        if depth + 1 > wave then deps[i] else deepest)
  {
  }

  lemma ExtendsTransitive(a: map<string, nat>, b: map<string, nat>, c: map<string, nat>)
    requires Extends(a, b) && Extends(b, c)
    ensures Extends(a, c)
  {
  }

  lemma ExtendsItself(a: map<string, nat>)
    ensures Extends(a, a)
  {
  }

  lemma DependencyBelow(g: Graph, order: seq<string>, rank: nat, i: nat) returns (below: nat)
    requires Topological(g, order) && rank < |order| && order[rank] in g && i < |g[order[rank]]|
    ensures below < rank && order[below] == g[order[rank]][i]
  {
    var dependency := g[order[rank]][i];
    assert Edge(g, order[rank], dependency);
    assert dependency in order[..rank];
    below :| 0 <= below < rank && order[..rank][below] == dependency;
  }

  method DependencyWaves(g: Graph, id: string, memo: map<string, nat>, ghost order: seq<string>, ghost rank: nat)
    returns (wave: nat, memo': map<string, nat>, ghost deepest: string)
    requires IsWaves(g, memo) && Topological(g, order) && id in g
    requires rank < |order| && order[rank] == id
    ensures IsWaves(g, memo') && Extends(memo, memo')
    ensures RightAbove(g, memo', id, wave, deepest)
    decreases rank, 0
  {
    hide IsWaves, Topological, Edge, Extends, AboveDependencies, RightAbove;
    memo', wave, deepest := memo, 0, id;
    ExtendsItself(memo);
    NoDependencyYet(g[id], memo, id);
    for i := 0 to |g[id]|
      invariant IsWaves(g, memo') && Extends(memo, memo')
      invariant AboveDependencies(g[id], i, memo', wave, deepest)
    {
      ghost var below := DependencyBelow(g, order, rank, i);
      ghost var before, lowest := memo', wave;
      var depth;
      depth, memo' := WaveIndex(g, g[id][i], memo', order, below);
      ExtendsTransitive(memo, before, memo');
      OneDependencyMore(g[id], i, before, lowest, deepest, memo');
      if depth + 1 > wave {
        wave, deepest := depth + 1, g[id][i];
      }
    }
    AllDependencies(g, id, memo', wave, deepest);
  }

  lemma NoDependencyYet(deps: seq<string>, w: map<string, nat>, any: string)
    ensures AboveDependencies(deps, 0, w, 0, any)
  {
  }

  lemma AllDependencies(g: Graph, a: string, w: map<string, nat>, wave: nat, deepest: string)
    requires a in g && AboveDependencies(g[a], |g[a]|, w, wave, deepest)
    ensures RightAbove(g, w, a, wave, deepest)
  {
  }

  /** Every item gets its wave: the length of its longest dependency chain. */
  method WaveIndices(items: seq<Node>, ghost order: seq<string>) returns (waves: map<string, nat>)
    requires Topological(GraphOf(items), order) && ListsAll(items, order)
    ensures IsWaves(GraphOf(items), waves)
    ensures forall i :: 0 <= i < |items| ==> items[i].id in waves
  {
    var g := GraphOf(items);
    waves := map[];
    for i := 0 to |items|
      invariant IsWaves(g, waves)
      invariant forall j :: 0 <= j < i ==> items[j].id in waves
    {
      ghost var rank :| 0 <= rank < |order| && order[rank] == items[i].id;
      var wave;
      ghost var before := waves;
      wave, waves := WaveIndex(g, items[i].id, waves, order, rank);
      assert forall j :: 0 <= j < i ==> items[j].id in before;
    }
  }

  /** Admission of a graph queue: a cycle refuses it, otherwise waves are dealt out. */
  method PlanWaves(items: seq<Node>) returns (plan: Result<map<string, nat>, seq<string>>)
    ensures plan.Ok? <==> Acyclic(GraphOf(items))
    ensures plan.Err? ==> IsCycle(GraphOf(items), plan.error)
    ensures plan.Ok? ==> IsWaves(GraphOf(items), plan.value) && forall i :: 0 <= i < |items| ==> items[i].id in plan.value
  {
    var cycle, order := DependencyGraphCycle(items);
    if cycle.Some? {
      return Err(cycle.value);
    }
    var waves := WaveIndices(items, order);
    plan := Ok(waves);
  }

  // ---- Reference normalisation ----

  /** An item id names itself; any other text names the first item with that slug. */
  function Resolve(items: seq<Node>, reference: string): Option<string> {
    if exists i :: 0 <= i < |items| && items[i].id == reference then Some(reference)
    else FirstSlug(items, reference)
  }

  function FirstSlug(items: seq<Node>, slug: string): Option<string> {
    if items == [] then None
    else if items[0].slug == slug then Some(items[0].id)
    else FirstSlug(items[1..], slug)
  }

  /** Blank, unknown, self and repeated references are dropped, in order. */
  function NormalizeFrom(items: seq<Node>, self: string, deps: seq<string>, seen: set<string>): seq<string> {
    if deps == [] then [] else
    var target := if IsBlank(deps[0]) then None else Resolve(items, deps[0]);
    if target.None? || target.value == self || target.value in seen then NormalizeFrom(items, self, deps[1..], seen)
    else [target.value] + NormalizeFrom(items, self, deps[1..], seen + {target.value})
  }

  function Normalized(items: seq<Node>): seq<Node> {
    seq(|items|, i requires 0 <= i < |items| =>
      items[i].(dependsOn := NormalizeFrom(items, items[i].id, items[i].dependsOn, {})))
  }

  lemma {:induction false} FirstSlugIsItem(items: seq<Node>, slug: string)
    requires FirstSlug(items, slug).Some?
    ensures exists i :: 0 <= i < |items| && items[i].id == FirstSlug(items, slug).value
  {
    if items[0].slug != slug {
      FirstSlugIsItem(items[1..], slug);
      var i :| 0 <= i < |items| - 1 && items[1..][i].id == FirstSlug(items, slug).value;
      assert items[i + 1].id == FirstSlug(items, slug).value;
    }
  }

  ghost predicate ResolvesTo(items: seq<Node>, deps: seq<string>, target: string) {
    exists r :: r in deps && !IsBlank(r) && Resolve(items, r) == Some(target)
  }

  /** The kept dependencies are distinct, and are exactly the items other than
      itself that some nonblank reference resolves to. */
  lemma {:induction false} NormalizeKeepsTargets(items: seq<Node>, self: string, deps: seq<string>, seen: set<string>)
    ensures
      var kept := NormalizeFrom(items, self, deps, seen);
      && Distinct(kept)
      && (forall d :: d in kept <==> d != self && d !in seen && ResolvesTo(items, deps, d))
  {
    if deps != [] {
      var target := if IsBlank(deps[0]) then None else Resolve(items, deps[0]);
      var rest := deps[1..];
      assert forall r :: r in deps <==> r == deps[0] || r in rest;
      if target.None? || target.value == self || target.value in seen {
        NormalizeKeepsTargets(items, self, rest, seen);
      } else {
        NormalizeKeepsTargets(items, self, rest, seen + {target.value});
      }
    }
  }

  /** The place of the first nonblank reference that resolves to the item. */
  function FirstReference(items: seq<Node>, deps: seq<string>, d: string): nat {
    if deps == [] || (!IsBlank(deps[0]) && Resolve(items, deps[0]) == Some(d)) then 0
    else 1 + FirstReference(items, deps[1..], d)
  }

  /** The kept dependencies stand in the order in which they are first referred to. */
  lemma {:induction false} NormalizeKeepsOrder(items: seq<Node>, self: string, deps: seq<string>, seen: set<string>)
    ensures
      var kept := NormalizeFrom(items, self, deps, seen);
      forall i, j :: 0 <= i < j < |kept| ==>
        FirstReference(items, deps, kept[i]) < FirstReference(items, deps, kept[j])
  {
    if deps != [] {
      var target := if IsBlank(deps[0]) then None else Resolve(items, deps[0]);
      var rest := deps[1..];
      var dropped := target.None? || target.value == self || target.value in seen;
      var seen' := if dropped then seen else seen + {target.value};
      var kept := NormalizeFrom(items, self, rest, seen');
      NormalizeKeepsOrder(items, self, rest, seen');
      NormalizeKeepsTargets(items, self, rest, seen');
      hide Resolve, IsBlank, ResolvesTo;
      forall i | 0 <= i < |kept|
        ensures FirstReference(items, deps, kept[i]) == 1 + FirstReference(items, rest, kept[i])
      {
        assert kept[i] in kept;
      }
    }
  }

  lemma ResolveFindsItem(items: seq<Node>, reference: string)
    requires Resolve(items, reference).Some?
    ensures exists j :: 0 <= j < |items| && items[j].id == Resolve(items, reference).value
  {
    if forall i :: 0 <= i < |items| ==> items[i].id != reference {
      FirstSlugIsItem(items, reference);
    }
  }

  lemma NormalizedDependency(items: seq<Node>, i: nat, d: string) returns (j: nat)
    requires i < |items| && d in Normalized(items)[i].dependsOn
    ensures d != items[i].id && j < |items| && items[j].id == d
    ensures ResolvesTo(items, items[i].dependsOn, d)
  {
    NormalizeKeepsTargets(items, items[i].id, items[i].dependsOn, {});
    var r :| r in items[i].dependsOn && Resolve(items, r) == Some(d);
    ResolveFindsItem(items, r);
    j :| 0 <= j < |items| && items[j].id == d;
  }

  lemma {:induction false} GraphOfItem(items: seq<Node>, a: string)
    requires a in GraphOf(items)
    ensures exists i :: 0 <= i < |items| && items[i].id == a && GraphOf(items)[a] == items[i].dependsOn
  {
    var n := |items| - 1;
    if items[n].id != a {
      GraphOfItem(items[..n], a);
      var i :| 0 <= i < n && items[..n][i].id == a && GraphOf(items[..n])[a] == items[..n][i].dependsOn;
      assert items[i].id == a;
    }
  }

  /** Item j is what the text refers to: it has that id, or nobody has and it is the first
      item with that slug. */
  ghost predicate Means(items: seq<Node>, reference: string, j: nat)
    requires j < |items|
  {
    || items[j].id == reference
    || ((forall k :: 0 <= k < |items| ==> items[k].id != reference)
        && items[j].slug == reference
        && forall k :: 0 <= k < j ==> items[k].slug != reference)
  }

  ghost predicate MeansId(items: seq<Node>, reference: string, d: string) {
    exists j :: 0 <= j < |items| && items[j].id == d && Means(items, reference, j)
  }

  ghost predicate RefersTo(items: seq<Node>, deps: seq<string>, j: nat)
    requires j < |items|
  {
    exists r :: r in deps && !IsBlank(r) && Means(items, r, j)
  }

  lemma {:induction false} FirstSlugIsFirst(items: seq<Node>, slug: string, j: nat)
    requires j < |items| && items[j].slug == slug && forall k :: 0 <= k < j ==> items[k].slug != slug
    ensures FirstSlug(items, slug) == Some(items[j].id)
  {
    if j > 0 {
      FirstSlugIsFirst(items[1..], slug, j - 1);
    }
  }

  lemma {:induction false} FirstSlugFound(items: seq<Node>, slug: string) returns (j: nat)
    requires FirstSlug(items, slug).Some?
    ensures j < |items| && items[j].slug == slug && items[j].id == FirstSlug(items, slug).value
    ensures forall k :: 0 <= k < j ==> items[k].slug != slug
  {
    if items[0].slug == slug {
      j := 0;
    } else {
      var rest := FirstSlugFound(items[1..], slug);
      j := rest + 1;
      assert forall k :: 0 < k < j ==> items[k] == items[1..][k - 1];
    }
  }

  /** A text resolves to an id exactly when it means an item with that id. */
  lemma ResolveMeans(items: seq<Node>, reference: string, d: string)
    ensures Resolve(items, reference) == Some(d) <==> MeansId(items, reference, d)
  {
    if j :| 0 <= j < |items| && items[j].id == d && Means(items, reference, j) {
      if items[j].id != reference {
        FirstSlugIsFirst(items, reference, j);
      }
    }
    if Resolve(items, reference) == Some(d) {
      if i :| 0 <= i < |items| && items[i].id == reference {
        assert Means(items, reference, i);
      } else {
        var j := FirstSlugFound(items, reference);
        assert Means(items, reference, j);
      }
    }
  }

  /** The normalised dependencies of an item, in terms of the raw items: exactly the other
      items that one of its nonblank references means, by id or else by first slug. */
  lemma NormalizedDependsIff(items: seq<Node>, i: nat, d: string)
    requires i < |items|
    ensures d in Normalized(items)[i].dependsOn <==>
      d != items[i].id && exists j :: 0 <= j < |items| && items[j].id == d && RefersTo(items, items[i].dependsOn, j)
    ensures Normalized(items)[i] == items[i].(dependsOn := Normalized(items)[i].dependsOn)
  {
    var deps := items[i].dependsOn;
    NormalizeKeepsTargets(items, items[i].id, deps, {});
    hide NormalizeFrom, Resolve, Means;
    if r :| r in deps && !IsBlank(r) && Resolve(items, r) == Some(d) {
      ResolveMeans(items, r, d);
      var j :| 0 <= j < |items| && items[j].id == d && Means(items, r, j);
      assert RefersTo(items, deps, j);
    }
    if j :| 0 <= j < |items| && items[j].id == d && RefersTo(items, deps, j) {
      var r :| r in deps && !IsBlank(r) && Means(items, r, j);
      ResolveMeans(items, r, d);
    }
  }

  /** A reference puts its item on a later wave than the item it means. */
  lemma WavesFollowReferences(items: seq<Node>, w: map<string, nat>, i: nat, j: nat)
    requires i < |items| && j < |items| && items[j].id != items[i].id && RefersTo(items, items[i].dependsOn, j)
    requires forall x, y :: 0 <= x < y < |items| ==> items[x].id != items[y].id
    requires IsWaves(GraphOf(Normalized(items)), w) && items[i].id in w
    ensures items[j].id in w && w[items[j].id] < w[items[i].id]
  {
    var done := Normalized(items);
    NormalizedDependsIff(items, i, items[j].id);
    GraphOfKeys(done);
    assert done[i].id == items[i].id;
    GraphOfItem(done, items[i].id);
    var x :| 0 <= x < |done| && done[x].id == items[i].id && GraphOf(done)[items[i].id] == done[x].dependsOn;
    assert items[x].id == items[i].id;
    assert x == i;
    assert Edge(GraphOf(done), items[i].id, items[j].id);
    assert WaveOk(GraphOf(done), w, items[i].id);
  }

  /** After normalisation every dependency is another item. */
  lemma NormalizedIsClosed(items: seq<Node>)
    ensures Closed(GraphOf(Normalized(items)))
    ensures forall a :: !Edge(GraphOf(Normalized(items)), a, a)
  {
    var done := Normalized(items);
    GraphOfKeys(done);
    forall a, b | Edge(GraphOf(done), a, b)
      ensures b in GraphOf(done) && a != b
    {
      GraphOfItem(done, a);
      var i :| 0 <= i < |done| && done[i].id == a && GraphOf(done)[a] == done[i].dependsOn;
      var j := NormalizedDependency(items, i, b);
      assert done[j].id == b;
    }
  }

  lemma DistinctRest(s: seq<string>)
    requires s != [] && Distinct(s)
    ensures Distinct(s[1..])
    ensures forall d :: d in s[1..] ==> d in s && d != s[0]
  {
    var rest := s[1..];
    forall i, j | 0 <= i < j < |rest|
      ensures rest[i] != rest[j]
    {
      assert rest[i] == s[i + 1] && rest[j] == s[j + 1];
    }
    forall d | d in rest
      ensures d in s && d != s[0]
    {
      var j :| 0 <= j < |rest| && rest[j] == d;
      assert s[j + 1] == d;
    }
  }

  lemma {:induction false} NormalizeFixes(items: seq<Node>, self: string, deps: seq<string>, seen: set<string>)
    requires Distinct(deps)
    requires forall d :: d in deps ==> !IsBlank(d) && d != self && d !in seen && Resolve(items, d) == Some(d)
    ensures NormalizeFrom(items, self, deps, seen) == deps
  {
    if deps != [] {
      DistinctRest(deps);
      hide Distinct;
      NormalizeFixes(items, self, deps[1..], seen + {deps[0]});
    }
  }

  /** Normalising twice is normalising once, as long as no item id is blank. */
  lemma NormalizedIsFixpoint(items: seq<Node>)
    requires forall i :: 0 <= i < |items| ==> !IsBlank(items[i].id)
    ensures Normalized(Normalized(items)) == Normalized(items)
  {
    var done := Normalized(items);
    forall i | 0 <= i < |items|
      ensures NormalizeFrom(done, done[i].id, done[i].dependsOn, {}) == done[i].dependsOn
    {
      NormalizeKeepsTargets(items, items[i].id, items[i].dependsOn, {});
      forall d | d in done[i].dependsOn
        ensures !IsBlank(d) && Resolve(done, d) == Some(d)
      {
        var j := NormalizedDependency(items, i, d);
        assert done[j].id == d;
      }
      NormalizeFixes(done, done[i].id, done[i].dependsOn, {});
    }
  }

  /** The reference table: ids first, then slugs that are not taken yet. */
  method BuildReferences(items: seq<Node>) returns (references: map<string, string>)
    ensures forall r :: r in references <==> Resolve(items, r).Some?
    ensures forall r :: r in references ==> Resolve(items, r) == Some(references[r])
    ensures forall r :: r in references <==> exists j :: 0 <= j < |items| && Means(items, r, j)
    ensures forall r :: r in references ==> MeansId(items, r, references[r])
  {
    references := map[];
    for i := 0 to |items|
      invariant forall r :: r in references <==> exists j :: 0 <= j < i && items[j].id == r
      invariant forall r :: r in references ==> references[r] == r
    {
      references := references[items[i].id := items[i].id];
    }
    ghost var ids := references;
    for i := 0 to |items|
      invariant forall r :: r in references <==> r in ids || FirstSlug(items[..i], r).Some?
      invariant forall r :: r in references ==>
        references[r] == if r in ids then r else FirstSlug(items[..i], r).value
    {
      assert items[..i + 1] == items[..i] + [items[i]];
      forall r
        ensures FirstSlug(items[..i + 1], r) ==
                FirstSlug(items[..i], r).OrElse(if items[i].slug == r then Some(items[i].id) else None)
      {
        FirstSlugAppend(items[..i], items[i], r);
      }
      if items[i].slug !in references {
        references := references[items[i].slug := items[i].id];
      }
    }
    assert items[..|items|] == items;
    ResolvesAsMeant(items, references);
  }

  lemma ResolvesAsMeant(items: seq<Node>, references: map<string, string>)
    requires forall r :: r in references <==> Resolve(items, r).Some?
    requires forall r :: r in references ==> Resolve(items, r) == Some(references[r])
    ensures forall r :: r in references <==> exists j :: 0 <= j < |items| && Means(items, r, j)
    ensures forall r :: r in references ==> MeansId(items, r, references[r])
  {
    forall r
      ensures r in references <==> exists j :: 0 <= j < |items| && Means(items, r, j)
      ensures r in references ==> MeansId(items, r, references[r])
    {
      if r in references {
        ResolveMeans(items, r, references[r]);
      }
      if j :| 0 <= j < |items| && Means(items, r, j) {
        ResolveMeans(items, r, items[j].id);
      }
    }
  }

  lemma {:induction false} FirstSlugAppend(items: seq<Node>, last: Node, slug: string)
    ensures FirstSlug(items + [last], slug) ==
            FirstSlug(items, slug).OrElse(if last.slug == slug then Some(last.id) else None)
  {
    if items != [] {
      assert (items + [last])[1..] == items[1..] + [last];
      FirstSlugAppend(items[1..], last, slug);
    }
  }

  /** The loop of one item: filter and resolve its references, remembering those seen. */
  method NormalizeItem(items: seq<Node>, references: map<string, string>, item: Node) returns (kept: seq<string>)
    requires forall r :: r in references <==> Resolve(items, r).Some?
    requires forall r :: r in references ==> Resolve(items, r) == Some(references[r])
    ensures kept == NormalizeFrom(items, item.id, item.dependsOn, {})
  {
    kept := [];
    var seen: set<string> := {};
    var deps := item.dependsOn;
    for i := 0 to |deps|
      invariant kept + NormalizeFrom(items, item.id, deps[i..], seen) == NormalizeFrom(items, item.id, deps, {})
    {
      assert deps[i..][1..] == deps[i + 1..];
      if !IsBlank(deps[i]) && deps[i] in references {
        var target := references[deps[i]];
        if target != item.id && target !in seen {
          seen := seen + {target};
          kept := kept + [target];
        }
      }
    }
  }

  /** The whole admission of a graph queue: normalise, then plan the waves. */
  method NormalizeGraph(items: seq<Node>) returns (done: seq<Node>, plan: Result<map<string, nat>, seq<string>>)
    ensures done == Normalized(items)
    ensures plan.Ok? <==> Acyclic(GraphOf(done))
    ensures plan.Err? ==> IsCycle(GraphOf(done), plan.error)
    ensures plan.Ok? ==> IsWaves(GraphOf(done), plan.value) && forall i :: 0 <= i < |done| ==> done[i].id in plan.value
  {
    var references := BuildReferences(items);
    done := [];
    for i := 0 to |items|
      invariant done == Normalized(items)[..i]
    {
      var kept := NormalizeItem(items, references, items[i]);
      done := done + [items[i].(dependsOn := kept)];
    }
    plan := PlanWaves(done);
  }
}
