/** The workflow graph (apohara_context_forge/scheduling/step_graph.py): cycle detection by
    three-colour depth-first search, the depth recursion with its shared visited set, and
    the eviction order built on it. */
module StepGraph {
  import opened Sorting

  datatype AgentStep = AgentStep(
    agentId: string, dependsOn: seq<string>, stepIndex: int, estimatedTokens: int, isOptional: bool)

  type Steps = map<string, AgentStep>

  // ----- dependency chains

  ghost predicate Edge(g: Steps, u: string, v: string) {
    u in g && v in g[u].dependsOn
  }

  ghost predicate IsChain(g: Steps, p: seq<string>) {
    p != [] && forall i :: 0 <= i < |p| - 1 ==> Edge(g, p[i], p[i + 1])
  }

  ghost predicate IsCycle(g: Steps, p: seq<string>) {
    IsChain(g, p) && |p| >= 2 && p[0] == p[|p| - 1]
  }

  /** Some agent depends on itself through one or more `depends_on` links. */
  ghost predicate HasCycle(g: Steps) {
    exists p :: IsCycle(g, p)
  }

  // ----- three-colour search

  datatype Color = White | Gray | Black

  type Colors = map<string, Color>

  /** Every name the search can meet, in the graph or only depended upon. */
  function Names(g: Steps): set<string> {
    g.Keys + set u, v | u in g && v in g[u].dependsOn :: v
  }

  /** `done` lists the blackened names so that each comes after all it depends on. */
  ghost predicate DependenciesFirst(g: Steps, done: seq<string>) {
    && Distinct(done)
    && forall i, v :: 0 <= i < |done| && Edge(g, done[i], v) ==> v in done[..i]
  }

  /** The gray names are the current path, the black ones are done. */
  ghost predicate Searching(g: Steps, color: Colors, path: seq<string>, done: seq<string>) {
    && (path != [] ==> IsChain(g, path))
    && (forall n :: n in path <==> n in color && color[n] == Gray)
    && (forall n :: n in done <==> n in color && color[n] == Black)
    && DependenciesFirst(g, done)
  }

  lemma {:induction false} ChainDescends(g: Steps, done: seq<string>, p: seq<string>, i: nat)
    requires DependenciesFirst(g, done) && IsChain(g, p) && i < |done| && done[i] == p[0] && |p| >= 2
    ensures p[|p| - 1] in done[..i]
  {
    assert Edge(g, p[0], p[1]);
    var j :| 0 <= j < i && done[j] == p[1];
    if |p| > 2 {
      var q := p[1..];
      forall k | 0 <= k < |q| - 1 ensures Edge(g, q[k], q[k + 1]) {
        assert q[k] == p[k + 1] && q[k + 1] == p[k + 2];
      }
      ChainDescends(g, done, q, j);
    }
  }

  lemma NoCycleWhenDone(g: Steps, done: seq<string>)
    requires DependenciesFirst(g, done) && forall n :: n in g ==> n in done
    ensures !HasCycle(g)
  {
    forall p | IsCycle(g, p) ensures false {
      assert Edge(g, p[0], p[1]);
      var i :| 0 <= i < |done| && done[i] == p[0];
      ChainDescends(g, done, p, i);
    }
  }

  lemma GrayMeansCycle(g: Steps, path: seq<string>, dep: string)
    requires IsChain(g, path) && Edge(g, path[|path| - 1], dep) && dep in path
    ensures HasCycle(g)
  {
    var k :| 0 <= k < |path| && path[k] == dep;
    assert IsCycle(g, path[k..] + [dep]);
  }

  lemma ExtendDone(g: Steps, done: seq<string>, node: string)
    requires DependenciesFirst(g, done) && node !in done
    requires forall v :: Edge(g, node, v) ==> v in done
    ensures DependenciesFirst(g, done + [node])
  {
    var more := done + [node];
    forall i, v | 0 <= i < |more| && Edge(g, more[i], v) ensures v in more[..i] {
      if i < |done| {
        assert more[..i] == done[..i];
      } else {
        assert more[..i] == done;
      }
    }
  }

  /** dfs: blackens `node` and everything below it, or raises. */
  method Dfs(g: Steps, color0: Colors, node: string, ghost path: seq<string>, ghost done0: seq<string>)
    returns (color: Colors, raised: bool, ghost done: seq<string>)
    requires Searching(g, color0, path, done0)
    requires node in Names(g) && node in color0 && color0[node] == White
    requires path != [] ==> Edge(g, path[|path| - 1], node)
    ensures raised ==> HasCycle(g)
    ensures !raised ==> Searching(g, color, path, done) && done0 <= done && node in done
    ensures !raised ==> color0.Keys <= color.Keys
    decreases Names(g) - Elements(path) - Elements(done0)
  {
    color, done := color0[node := Gray], done0;
    ghost var longer := path + [node];
    if node in g {
      var deps := g[node].dependsOn;
      for k := 0 to |deps|
        invariant Searching(g, color, longer, done) && done0 <= done
        invariant forall d :: d in deps[..k] ==> d in done
        invariant color0.Keys <= color.Keys
      {
        var dep := deps[k];
        assert Edge(g, node, dep);
        if dep !in color {
          color := color[dep := White];
        }
        if color[dep] == Gray {
          GrayMeansCycle(g, longer, dep);
          return color, true, done;
        }
        if color[dep] == White {
          assert node in Names(g) - Elements(path) - Elements(done0);
          color, raised, done := Dfs(g, color, dep, longer, done);
          if raised {
            return;
          }
        }
      }
    }
    assert DependenciesFirst(g, done + [node]) by {
      ExtendDone(g, done, node);
    }
    color, done, raised := color[node := Black], done + [node], false;
  }

  // ----- depth

  function Max(a: int, b: int): int { if a >= b then a else b }

  lemma Shrinks(g: Steps, visited: set<string>, id: string)
    requires id in g && id !in visited
    ensures |g.Keys - (visited + {id})| < |g.Keys - visited|
  {
    assert g.Keys - visited == (g.Keys - (visited + {id})) + {id};
  }

  lemma NotMore(g: Steps, v: set<string>, w: set<string>)
    requires v <= w
    ensures |g.Keys - w| <= |g.Keys - v|
  {
    var a, b := g.Keys - w, g.Keys - v;
    assert b == a + (b - a);
  }

  /** compute_depth: the depth found, and the visited set it leaves behind. */
  function DepthFrom(g: Steps, id: string, visited: set<string>): (r: (int, set<string>))
    requires id in g
    ensures visited <= r.1
    decreases |g.Keys - visited|, 0
  {
    if id in visited then (0, visited)
    else
      Shrinks(g, visited, id);
      var deps, v := g[id].dependsOn, visited + {id};
      if deps == [] then (g[id].stepIndex, v)
      else
        var r := DeepestOf(g, deps, v);
        (r.0 + 1, r.1)
  }

  /** Its loop over the dependencies that are in the graph. */
  function DeepestOf(g: Steps, deps: seq<string>, visited: set<string>): (r: (int, set<string>))
    ensures visited <= r.1 && r.0 >= 0
    decreases |g.Keys - visited|, |deps| + 1
  {
    if deps == [] then (0, visited)
    else
      var n := |deps| - 1;
      var r := DeepestOf(g, deps[..n], visited);
      NotMore(g, visited, r.1);
      if deps[n] in g then
        var one := DepthFrom(g, deps[n], r.1);
        (Max(r.0, one.0), one.1)
      else r
  }

  method ComputeDepth(g: Steps, id: string, visited0: set<string>) returns (depth: int, visited: set<string>)
    requires id in g
    ensures (depth, visited) == DepthFrom(g, id, visited0)
    decreases |g.Keys - visited0|
  {
    if id in visited0 {
      return 0, visited0;
    }
    Shrinks(g, visited0, id);
    visited := visited0 + {id};
    var deps := g[id].dependsOn;
    if deps == [] {
      return g[id].stepIndex, visited;
    }
    var most := 0;
    for k := 0 to |deps|
      invariant (most, visited) == DeepestOf(g, deps[..k], visited0 + {id})
    {
      assert deps[..k + 1][..k] == deps[..k];
      if deps[k] in g {
        NotMore(g, visited0 + {id}, visited);
        var one;
        one, visited := ComputeDepth(g, deps[k], visited);
        most := Max(most, one);
      }
    }
    assert deps[..|deps|] == deps;
    depth := most + 1;
  }

  /** A chain of agents of the graph that starts at u. */
  ghost predicate ChainOf(g: Steps, u: string, p: seq<string>) {
    IsChain(g, p) && p[0] == u && p[|p| - 1] in g
  }

  /** The depth a chain gives its first agent: one per link, plus the step index of a root
      or 1 for an agent that still has dependencies. */
  ghost function ChainDepth(g: Steps, p: seq<string>): int
    requires p != [] && p[|p| - 1] in g
  {
    var last := g[p[|p| - 1]];
    |p| - 1 + if last.dependsOn == [] then last.stepIndex else 1
  }

  lemma ExtendChain(g: Steps, u: string, v: string, p: seq<string>)
    requires Edge(g, u, v) && ChainOf(g, v, p)
    ensures ChainOf(g, u, [u] + p) && ChainDepth(g, [u] + p) == ChainDepth(g, p) + 1
  {
    var q := [u] + p;
    forall i | 0 <= i < |q| - 1 ensures Edge(g, q[i], q[i + 1]) {
      assert i > 0 ==> q[i] == p[i - 1];
    }
  }

  // ----- which chain the depth comes from

  ghost predicate Reaches(g: Steps, u: string, v: string) {
    exists p :: ChainOf(g, u, p) && p[|p| - 1] == v
  }

  lemma ReachesItself(g: Steps, u: string)
    requires u in g
    ensures ChainOf(g, u, [u]) && Reaches(g, u, u)
  {
    var p := [u];
    assert ChainOf(g, u, p) && p[|p| - 1] == u;
  }

  lemma ReachesBelow(g: Steps, u: string, d: string, v: string)
    requires Edge(g, u, d) && Reaches(g, d, v)
    ensures Reaches(g, u, v)
  {
    var p :| ChainOf(g, d, p) && p[|p| - 1] == v;
    ExtendChain(g, u, d, p);
    var q := [u] + p;
    assert q[|q| - 1] == v;
  }

  lemma {:induction false} ReachesOn(g: Steps, u: string, v: string, w: string)
    requires Reaches(g, u, v) && Reaches(g, v, w)
    ensures Reaches(g, u, w)
  {
    var p :| ChainOf(g, u, p) && p[|p| - 1] == v;
    ChainReachesOn(g, u, p, w);
  }

  lemma {:induction false} ChainReachesOn(g: Steps, u: string, p: seq<string>, w: string)
    requires ChainOf(g, u, p) && Reaches(g, p[|p| - 1], w)
    ensures Reaches(g, u, w)
    decreases |p|
  {
    if |p| > 1 {
      TailIsChain(g, u, p);
      ChainReachesOn(g, p[1], p[1..], w);
      ReachesBelow(g, u, p[1], w);
    }
  }

  lemma OnlyFromGraph(g: Steps, d: string, t: string)
    ensures Reaches(g, d, t) ==> d in g
  {
    if Reaches(g, d, t) {
      var p :| ChainOf(g, d, p) && p[|p| - 1] == t;
      assert |p| > 1 ==> Edge(g, p[0], p[1]);
    }
  }

  lemma TailIsChain(g: Steps, u: string, p: seq<string>)
    requires ChainOf(g, u, p) && |p| > 1
    ensures Edge(g, u, p[1]) && p[1] in g && ChainOf(g, p[1], p[1..]) && p[1..][|p| - 2] == p[|p| - 1]
    ensures ChainDepth(g, p) == ChainDepth(g, p[1..]) + 1
  {
    var q := p[1..];
    assert Edge(g, p[0], p[1]);
    forall k | 0 <= k < |q| - 1 ensures Edge(g, q[k], q[k + 1]) {
      assert q[k] == p[k + 1] && q[k + 1] == p[k + 2];
    }
    assert |p| > 2 ==> Edge(g, p[1], p[2]);
  }

  lemma WayBackIsCycle(g: Steps, u: string, d: string)
    requires Edge(g, u, d)
    ensures Reaches(g, d, u) ==> HasCycle(g)
  {
    if Reaches(g, d, u) {
      var p :| ChainOf(g, d, p) && p[|p| - 1] == u;
      ExtendChain(g, u, d, p);
      assert IsCycle(g, [u] + p);
    }
  }

  /** Whatever lies behind a visited agent below u is visited too. */
  ghost predicate ClosedBelow(g: Steps, u: string, visited: set<string>) {
    forall w, t :: Reaches(g, u, w) && w in visited && Reaches(g, w, t) ==> t in visited
  }

  ghost predicate SomeReaches(g: Steps, deps: seq<string>, t: string) {
    exists d :: d in deps && Reaches(g, d, t)
  }

  /** A call visits exactly what its agent reaches. */
  lemma {:induction false} VisitsReached(g: Steps, u: string, visited: set<string>, t: string)
    requires !HasCycle(g) && u in g && ClosedBelow(g, u, visited)
    ensures t in DepthFrom(g, u, visited).1 <==> t in visited || Reaches(g, u, t)
    decreases |g.Keys - visited|, 1
  {
    ReachesItself(g, u);
    var deps := g[u].dependsOn;
    if u !in visited {
      SiblingsVisit(g, u, |deps|, visited, t);
      assert deps[..|deps|] == deps;
      if Reaches(g, u, t) && t != u {
        var p :| ChainOf(g, u, p) && p[|p| - 1] == t;
        TailIsChain(g, u, p);
        assert Reaches(g, p[1], t);
      }
      if SomeReaches(g, deps, t) {
        var d :| d in deps && Reaches(g, d, t);
        ReachesBelow(g, u, d, t);
      }
    }
  }

  /** The first n dependencies together visit exactly what one of them reaches. */
  lemma {:induction false} SiblingsVisit(g: Steps, u: string, n: nat, visited: set<string>, t: string)
    requires !HasCycle(g) && u in g && u !in visited && ClosedBelow(g, u, visited)
    requires n <= |g[u].dependsOn|
    ensures t in DeepestOf(g, g[u].dependsOn[..n], visited + {u}).1 <==>
            t in visited || t == u || SomeReaches(g, g[u].dependsOn[..n], t)
    decreases |g.Keys - visited|, 0, n, 0
  {
    if n > 0 {
      var deps, m := g[u].dependsOn, n - 1;
      var d := deps[m];
      assert deps[..n][..m] == deps[..m] && deps[..n] == deps[..m] + [d];
      SiblingsVisit(g, u, m, visited, t);
      if d in g {
        var now := DeepestOf(g, deps[..m], visited + {u}).1;
        Shrinks(g, visited, u);
        NotMore(g, visited + {u}, now);
        SiblingClosed(g, u, m, visited);
        VisitsReached(g, d, now, t);
      }
      OnlyFromGraph(g, d, t);
      assert SomeReaches(g, deps[..n], t) <==> SomeReaches(g, deps[..m], t) || Reaches(g, d, t);
    }
  }

  /** When its turn comes, what is visited is closed below the next dependency. */
  lemma SiblingClosed(g: Steps, u: string, n: nat, visited: set<string>)
    requires !HasCycle(g) && u in g && u !in visited && ClosedBelow(g, u, visited)
    requires n < |g[u].dependsOn|
    ensures ClosedBelow(g, g[u].dependsOn[n], DeepestOf(g, g[u].dependsOn[..n], visited + {u}).1)
    decreases |g.Keys - visited|, 0, n, 1
  {
    var deps := g[u].dependsOn;
    var now, d := DeepestOf(g, deps[..n], visited + {u}).1, deps[n];
    forall w, t | Reaches(g, d, w) && w in now && Reaches(g, w, t) ensures t in now {
      SiblingsVisit(g, u, n, visited, w);
      SiblingsVisit(g, u, n, visited, t);
      WayBackIsCycle(g, u, d);
      if w in visited {
        ReachesBelow(g, u, d, w);
      } else {
        var e :| e in deps[..n] && Reaches(g, e, w);
        ReachesOn(g, e, w, t);
      }
    }
  }

  /** A chain that is the first way, in listing order, to where it ends: no dependency listed
      before a link it takes leads there. */
  ghost predicate IsFirst(g: Steps, p: seq<string>) {
    |p| > 1 ==>
      && p[0] in g && IsFirst(g, p[1..])
      && forall k :: 0 <= k < |g[p[0]].dependsOn| && p[1] !in g[p[0]].dependsOn[..k + 1] ==>
                       !Reaches(g, g[p[0]].dependsOn[k], p[|p| - 1])
  }

  /** The depth found is the depth of a first chain ... */
  lemma {:induction false} DepthIsFirst(g: Steps, u: string, visited: set<string>) returns (p: seq<string>)
    requires !HasCycle(g) && u in g && u !in visited && ClosedBelow(g, u, visited)
    ensures ChainOf(g, u, p) && IsFirst(g, p) && p[|p| - 1] !in visited
    ensures ChainDepth(g, p) == DepthFrom(g, u, visited).0
    decreases |g.Keys - visited|, 1
  {
    p := [u];
    var deps := g[u].dependsOn;
    assert deps[..|deps|] == deps;
    if deps != [] && DeepestOf(g, deps, visited + {u}).0 > 0 {
      var k, q := DeepestIsFirst(g, u, |deps|, visited);
      var t := q[|q| - 1];
      SiblingsVisit(g, u, k, visited, t);
      ExtendChain(g, u, deps[k], q);
      p := [u] + q;
      assert p[1..] == q && p[1] == deps[k] && p[|p| - 1] == t;
      forall j | 0 <= j < |deps| ensures p[1] in deps[..j + 1] || !Reaches(g, deps[j], t) {
        if j < k {
          assert deps[j] in deps[..k];
        } else {
          assert deps[..j + 1][k] == p[1];
        }
      }
    }
  }

  lemma {:induction false} DeepestIsFirst(g: Steps, u: string, n: nat, visited: set<string>)
    returns (k: nat, q: seq<string>)
    requires !HasCycle(g) && u in g && u !in visited && ClosedBelow(g, u, visited)
    requires n <= |g[u].dependsOn| && DeepestOf(g, g[u].dependsOn[..n], visited + {u}).0 > 0
    ensures k < n && ChainOf(g, g[u].dependsOn[k], q) && IsFirst(g, q)
    ensures ChainDepth(g, q) == DeepestOf(g, g[u].dependsOn[..n], visited + {u}).0
    ensures q[|q| - 1] !in DeepestOf(g, g[u].dependsOn[..k], visited + {u}).1
    decreases |g.Keys - visited|, 0, n
  {
    var deps, m := g[u].dependsOn, n - 1;
    assert deps[..n][..m] == deps[..m];
    var r := DeepestOf(g, deps[..m], visited + {u});
    if r.0 == DeepestOf(g, deps[..n], visited + {u}).0 {
      k, q := DeepestIsFirst(g, u, m, visited);
    } else {
      Shrinks(g, visited, u);
      NotMore(g, visited + {u}, r.1);
      SiblingClosed(g, u, m, visited);
      k := m;
      q := DepthIsFirst(g, deps[m], r.1);
    }
  }

  /** ... and no first chain is deeper. */
  lemma {:induction false} FirstIsCounted(g: Steps, u: string, visited: set<string>, p: seq<string>)
    requires !HasCycle(g) && u in g && ClosedBelow(g, u, visited)
    requires ChainOf(g, u, p) && IsFirst(g, p) && p[|p| - 1] !in visited
    ensures ChainDepth(g, p) <= DepthFrom(g, u, visited).0
    decreases |p|
  {
    ReachesItself(g, u);
    var deps, t := g[u].dependsOn, p[|p| - 1];
    assert Reaches(g, u, t);
    if |p| > 1 {
      TailIsChain(g, u, p);
      var k := FirstPlace(deps, p[1]);
      var now := DeepestOf(g, deps[..k], visited + {u}).1;
      assert Reaches(g, p[1], t);
      WayBackIsCycle(g, u, p[1]);
      NoEarlierWay(g, p, k);
      SiblingsVisit(g, u, k, visited, t);
      SiblingClosed(g, u, k, visited);
      FirstIsCounted(g, p[1], now, p[1..]);
      assert deps[..k + 1][..k] == deps[..k];
      DeepestGrows(g, deps, k + 1, visited + {u});
    }
  }

  /** No earlier dependency leads to the end of a first chain. */
  lemma NoEarlierWay(g: Steps, p: seq<string>, k: nat)
    requires |p| > 1 && IsFirst(g, p)
    requires k < |g[p[0]].dependsOn| && p[1] !in g[p[0]].dependsOn[..k]
    ensures !SomeReaches(g, g[p[0]].dependsOn[..k], p[|p| - 1])
  {
    var deps := g[p[0]].dependsOn;
    forall e | e in deps[..k] ensures !Reaches(g, e, p[|p| - 1]) {
      var j :| 0 <= j < k && deps[j] == e;
      assert deps[..j + 1] == deps[..k][..j + 1];
    }
  }

  lemma FirstPlace(deps: seq<string>, d: string) returns (k: nat)
    requires d in deps
    ensures k < |deps| && deps[k] == d && d !in deps[..k]
  {
    k := 0;
    while deps[k] != d
      invariant k < |deps| && d !in deps[..k] && d in deps
      decreases |deps| - k
    {
      assert d in deps[k + 1..] by {
        var i :| 0 <= i < |deps| && deps[i] == d;
        assert i > k;
        assert deps[k + 1..][i - k - 1] == d;
      }
      k := k + 1;
    }
  }

  lemma {:induction false} DeepestGrows(g: Steps, deps: seq<string>, k: nat, visited: set<string>)
    requires k <= |deps|
    ensures DeepestOf(g, deps[..k], visited).0 <= DeepestOf(g, deps, visited).0
    decreases |deps|
  {
    if k < |deps| {
      var n := |deps| - 1;
      assert deps[..n][..k] == deps[..k];
      DeepestGrows(g, deps[..n], k, visited);
    } else {
      assert deps[..k] == deps;
    }
  }

  ghost predicate NoneDeeper(g: Steps, u: string, depth: int) {
    forall q :: ChainOf(g, u, q) ==> ChainDepth(g, q) <= depth
  }

  /** On a validated graph the depth found is the longest exactly when some chain that none
      exceeds is also the first way to where it ends. */
  lemma DepthIsLongestIff(g: Steps, u: string)
    requires !HasCycle(g) && u in g
    ensures NoneDeeper(g, u, DepthFrom(g, u, {}).0) <==>
            exists p :: ChainOf(g, u, p) && IsFirst(g, p) && NoneDeeper(g, u, ChainDepth(g, p))
  {
    var _ := DepthIsFirst(g, u, {});
    forall p | ChainOf(g, u, p) && IsFirst(g, p) ensures ChainDepth(g, p) <= DepthFrom(g, u, {}).0 {
      FirstIsCounted(g, u, {}, p);
    }
  }

  /** Every agent reachable from u is reached along exactly one chain. */
  ghost predicate OnePathEach(g: Steps, u: string) {
    forall p, q :: ChainOf(g, u, p) && ChainOf(g, u, q) && p[|p| - 1] == q[|q| - 1] ==> p == q
  }

  lemma OnePathBelow(g: Steps, u: string, d: string)
    requires OnePathEach(g, u) && Edge(g, u, d)
    ensures OnePathEach(g, d)
  {
    forall p, q | ChainOf(g, d, p) && ChainOf(g, d, q) && p[|p| - 1] == q[|q| - 1] ensures p == q {
      ExtendChain(g, u, d, p);
      ExtendChain(g, u, d, q);
      assert ([u] + p)[|p|] == ([u] + q)[|q|];
      assert ([u] + p)[1..] == p && ([u] + q)[1..] == q;
    }
  }

  lemma {:induction false} OnePathIsFirst(g: Steps, u: string, p: seq<string>)
    requires OnePathEach(g, u) && ChainOf(g, u, p)
    ensures IsFirst(g, p)
    decreases |p|
  {
    if |p| > 1 {
      TailIsChain(g, u, p);
      OnePathBelow(g, u, p[1]);
      OnePathIsFirst(g, p[1], p[1..]);
      var deps := g[u].dependsOn;
      forall k | 0 <= k < |deps| ensures p[1] in deps[..k + 1] || !Reaches(g, deps[k], p[|p| - 1]) {
        if Reaches(g, deps[k], p[|p| - 1]) {
          var q :| ChainOf(g, deps[k], q) && q[|q| - 1] == p[|p| - 1];
          ExtendChain(g, u, deps[k], q);
          assert ([u] + q)[|q|] == p[|p| - 1];
          assert p == [u] + q;
          assert deps[..k + 1][k] == p[1];
        }
      }
    }
  }

  /** When every reachable agent is reached along one chain, the depth found is the longest. */
  lemma DepthIsLongest(g: Steps, u: string)
    requires !HasCycle(g) && u in g && OnePathEach(g, u)
    ensures NoneDeeper(g, u, DepthFrom(g, u, {}).0)
  {
    forall q | ChainOf(g, u, q) ensures ChainDepth(g, q) <= DepthFrom(g, u, {}).0 {
      OnePathIsFirst(g, u, q);
      FirstIsCounted(g, u, {}, q);
    }
  }

  /** a depends on d and b, listed in that order, and b on d. */
  function Skewed(a: string, b: string, d: string): Steps {
    map[a := AgentStep(a, [d, b], 3, 0, false), b := AgentStep(b, [d], 2, 0, false), d := AgentStep(d, [], 1, 0, false)]
  }

  lemma SkewedIsAcyclic(a: string, b: string, d: string)
    requires a != b && b != d && a != d
    ensures !HasCycle(Skewed(a, b, d))
  {
    var g := Skewed(a, b, d);
    ExtendDone(g, [], d);
    assert [] + [d] == [d] && [d] + [b] == [d, b] && [d, b] + [a] == [d, b, a];
    ExtendDone(g, [d], b);
    ExtendDone(g, [d, b], a);
    NoCycleWhenDone(g, [d, b, a]);
  }

  /** Reached along two chains, an agent counts as 0 the second time: met first on its own,
      d costs a its chain through b, which has depth 3. */
  lemma RevisitFallsShort(a: string, b: string, d: string)
    requires a != b && b != d && a != d
    ensures var g := Skewed(a, b, d);
            && !HasCycle(g) && ChainOf(g, a, [a, b, d])
            && DepthFrom(g, a, {}).0 == 2 && ChainDepth(g, [a, b, d]) == 3
  {
    SkewedIsAcyclic(a, b, d);
    var g := Skewed(a, b, d);
    var none: seq<string> := [];
    var v1, v2, v3 := {a}, {a, d}, {a, d, b};
    assert v1 + {d} == v2 && v2 + {b} == v3 && {} + {a} == v1;
    assert [d][..0] == none && [d, b][..1] == [d];
    assert DeepestOf(g, none, v1) == (0, v1);
    assert DepthFrom(g, d, v1) == (1, v2);
    assert DeepestOf(g, [d], v1) == (1, v2);
    assert DeepestOf(g, none, v3) == (0, v3);
    assert DeepestOf(g, [d], v3) == (0, v3);
    assert DepthFrom(g, b, v2) == (1, v3);
    assert DeepestOf(g, [d, b], v1) == (1, v3);
  }

  /** Searching from every key that is still white when its turn comes. */
  method SearchAll(g: Steps, keys: seq<string>) returns (raised: bool)
    requires forall k :: k in keys <==> k in g
    ensures raised <==> HasCycle(g)
  {
    var color: Colors := map k | k in g :: White;
    ghost var done: seq<string> := [];
    for i := 0 to |keys|
      invariant Searching(g, color, [], done)
      invariant forall j :: 0 <= j < i ==> keys[j] in done
      invariant g.Keys <= color.Keys
    {
      var sid := keys[i];
      assert sid in g;
      if color[sid] == White {
        assert sid in Names(g);
        color, raised, done := Dfs(g, color, sid, [], done);
        if raised {
          return;
        }
      }
    }
    NoCycleWhenDone(g, done);
    raised := false;
  }

  // ----- the graph object

  /** sys.maxsize */
  const MAXSIZE := 0x7FFF_FFFF_FFFF_FFFF

  datatype Result<+T> = Ok(value: T) | CycleDetected

  class AgentStepGraph {
    var steps: Steps
    var keyOrder: seq<string>
    var stepList: seq<AgentStep>

    ghost predicate Valid()
      reads this
    {
      && Distinct(keyOrder) && (forall k :: k in keyOrder <==> k in steps)
      && (forall k :: k in steps <==> exists s :: s in stepList && s.agentId == k)
    }

    constructor ()
      ensures Valid() && steps == map[] && stepList == []
    {
      steps, keyOrder, stepList := map[], [], [];
    }

    /** A step added again under its id replaces the old one in the dictionary, at its old
        place, but is listed twice. */
    method AddStep(step: AgentStep)
      requires Valid()
      modifies this
      ensures Valid()
      ensures steps == old(steps)[step.agentId := step] && stepList == old(stepList) + [step]
      ensures keyOrder == old(keyOrder) + if step.agentId in old(steps) then [] else [step.agentId]
    {
      if step.agentId !in steps {
        keyOrder := keyOrder + [step.agentId];
      }
      steps, stepList := steps[step.agentId := step], stepList + [step];
      forall k ensures k in steps <==> exists s :: s in stepList && s.agentId == k {
        if k in steps {
          if k == step.agentId {
            assert step in stepList;
          } else {
            var s :| s in old(stepList) && s.agentId == k;
            assert s in stepList;
          }
        }
      }
    }

    /** validate_dag raises exactly when the `depends_on` relation has a cycle, whatever names
        outside the graph it mentions. */
    method ValidateDag() returns (raised: bool)
      requires Valid()
      ensures raised <==> HasCycle(steps)
    {
      raised := SearchAll(steps, keyOrder);
    }

    function StepsTo(agentId: string, currentStep: int): int
      reads this
    {
      if agentId !in steps then MAXSIZE
      else if steps[agentId].stepIndex <= currentStep then 0
      else DepthFrom(steps, agentId, {}).0
    }

    /** What compute_steps_to_execution answers on a graph without cycles: the largest machine
        integer for an unknown agent, 0 for one that is not after the current step, and else
        the depth of an actual chain of the agent that no first chain exceeds. */
    ghost predicate IsStepsTo(n: int, agentId: string, currentStep: int)
      reads this
    {
      if agentId !in steps then n == 0x7FFF_FFFF_FFFF_FFFF
      else if steps[agentId].stepIndex <= currentStep then n == 0
      else
        && (exists p :: ChainOf(steps, agentId, p) && IsFirst(steps, p) && ChainDepth(steps, p) == n)
        && forall p :: ChainOf(steps, agentId, p) && IsFirst(steps, p) ==> ChainDepth(steps, p) <= n
    }

    lemma StepsToIs(agentId: string, currentStep: int)
      requires !HasCycle(steps)
      ensures IsStepsTo(StepsTo(agentId, currentStep), agentId, currentStep)
    {
      if agentId in steps && steps[agentId].stepIndex > currentStep {
        var _ := DepthIsFirst(steps, agentId, {});
        forall p | ChainOf(steps, agentId, p) && IsFirst(steps, p)
          ensures ChainDepth(steps, p) <= StepsTo(agentId, currentStep)
        {
          FirstIsCounted(steps, agentId, {}, p);
        }
      }
    }

    method ComputeStepsToExecution(agentId: string, currentStep: int) returns (r: Result<int>)
      requires Valid()
      ensures r == if HasCycle(steps) then CycleDetected else Ok(StepsTo(agentId, currentStep))
      ensures r.Ok? ==> IsStepsTo(r.value, agentId, currentStep)
    {
      var raised := ValidateDag();
      if raised {
        return CycleDetected;
      }
      StepsToIs(agentId, currentStep);
      if agentId !in steps {
        return Ok(MAXSIZE);
      }
      if steps[agentId].stepIndex <= currentStep {
        return Ok(0);
      }
      var depth, _ := ComputeDepth(steps, agentId, {});
      r := Ok(depth);
    }

    ghost function Priorities(listed: seq<AgentStep>): (ps: seq<(string, int)>)
      reads this
      ensures |ps| == |listed|
    {
      seq(|listed|, i requires 0 <= i < |listed| reads this => (listed[i].agentId, StepsTo(listed[i].agentId, 0)))
    }

    lemma OneMorePriority(listed: seq<AgentStep>, step: AgentStep)
      ensures Priorities(listed + [step]) == Priorities(listed) + [(step.agentId, StepsTo(step.agentId, 0))]
    {
    }

    /** The listed agents, most steps to execution first, ties in listing order. */
    method GetEvictionPriorityOrder() returns (r: Result<seq<string>>, ghost ranked: seq<(string, int)>)
      requires Valid()
      ensures r.CycleDetected? <==> HasCycle(steps)
      ensures r.Ok? ==>
                && var listed := Priorities(stepList);
                && multiset(ranked) == multiset(listed)
                && (forall i, j :: 0 <= i < j < |ranked| ==> ranked[i].1 >= ranked[j].1)
                && (forall k :: WithKey(ranked, Far, k) == WithKey(listed, Far, k))
                && |r.value| == |ranked| && forall i :: 0 <= i < |ranked| ==> r.value[i] == ranked[i].0
      ensures r.Ok? ==> forall i :: 0 <= i < |stepList| ==>
                && Priorities(stepList)[i].0 == stepList[i].agentId
                && IsStepsTo(Priorities(stepList)[i].1, stepList[i].agentId, 0)
    {
      ranked := [];
      var priorities: seq<(string, int)> := [];
      for i := 0 to |stepList|
        invariant priorities == Priorities(stepList[..i])
        invariant i > 0 ==> !HasCycle(steps)
      {
        var one := ComputeStepsToExecution(stepList[i].agentId, 0);
        if one.CycleDetected? {
          return CycleDetected, [];
        }
        assert stepList[..i + 1] == stepList[..i] + [stepList[i]];
        OneMorePriority(stepList[..i], stepList[i]);
        priorities := priorities + [(stepList[i].agentId, one.value)];
      }
      assert stepList[..|stepList|] == stepList;
      if stepList == [] {
        EmptyHasNoCycle();
      }
      forall i | 0 <= i < |stepList| ensures IsStepsTo(Priorities(stepList)[i].1, stepList[i].agentId, 0) {
        StepsToIs(stepList[i].agentId, 0);
      }
      var sorted := SortBy(priorities, Far);
      SortByIsStable(priorities, Far);
      ranked := sorted;
      forall i, j | 0 <= i < j < |ranked| ensures ranked[i].1 >= ranked[j].1 {
        assert Far(ranked[i]) <= Far(ranked[j]);
      }
      r := Ok(seq(|sorted|, i requires 0 <= i < |sorted| => sorted[i].0));
    }

    lemma EmptyHasNoCycle()
      requires Valid() && stepList == []
      ensures !HasCycle(steps)
    {
      NoCycleWhenDone(steps, []);
    }
  }

  /** Sorting in reverse keeps equal keys in order, as sorting by the negated key does. */
  function Far(p: (string, int)): real { -(p.1 as real) }
}
