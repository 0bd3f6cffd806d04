/** Dependency levels of a project blueprint's files: Kahn's algorithm by waves, then a stable sort. */
module TopoSort {
  import opened Counting

  datatype FileSpec = FileSpec(path: string, deps: seq<string>, priority: int)

  // ---- the dependency graph ----

  /** The file a path names: the last one listed under it. */
  function IndexOf(files: seq<FileSpec>, path: string): (i: int)
    ensures -1 <= i < |files|
    ensures i >= 0 ==> files[i].path == path && forall k :: i < k < |files| ==> files[k].path != path
    ensures i == -1 ==> forall k :: 0 <= k < |files| ==> files[k].path != path
  {
    if files == [] then -1
    else if files[|files| - 1].path == path then |files| - 1
    else IndexOf(files[..|files| - 1], path)
  }

  /** The known dependencies among `deps`, by index, one entry per mention. */
  function Resolve(files: seq<FileSpec>, deps: seq<string>): (r: seq<nat>)
    ensures forall k :: 0 <= k < |r| ==> r[k] < |files|
  {
    if deps == [] then []
    else
      var j := IndexOf(files, deps[|deps| - 1]);
      Resolve(files, deps[..|deps| - 1]) + if j >= 0 then [j as nat] else []
  }

  /** For every file the indices it depends on. */
  type Graph = g: seq<seq<nat>> | forall i :: 0 <= i < |g| ==> forall k :: 0 <= k < |g[i]| ==> g[i][k] < |g|

  function GraphOf(files: seq<FileSpec>): (g: Graph)
    ensures |g| == |files|
  {
    seq(|files|, i requires 0 <= i < |files| => Resolve(files, files[i].deps))
  }

  /** A dependency chain: each node is a dependency of the next. */
  ghost predicate IsChain(g: Graph, c: seq<nat>)
  {
    && (forall k :: 0 <= k < |c| ==> c[k] < |g|)
    && forall k :: 0 <= k < |c| - 1 ==> c[k] in g[c[k + 1]]
  }

  ghost predicate ChainTo(g: Graph, c: seq<nat>, i: nat)
  {
    c != [] && c[|c| - 1] == i && IsChain(g, c)
  }

  /** File `i` depends, directly or not, on a file that depends on itself. */
  ghost predicate ReachesCycle(g: Graph, i: nat)
  {
    exists c, a, b :: ChainTo(g, c, i) && 0 <= a < b < |c| && c[a] == c[b]
  }

  ghost predicate Acyclic(g: Graph)
  {
    forall i :: 0 <= i < |g| ==> !ReachesCycle(g, i)
  }

  // ---- waves ----

  /** The files settled before wave `k`: those whose dependencies were all settled a wave earlier. */
  ghost function Settled(g: Graph, k: nat): (r: set<nat>)
    ensures r <= Below(|g|)
  {
    if k == 0 then {}
    else set i | i in Below(|g|) && forall d <- g[i] :: d in Settled(g, k - 1)
  }

  lemma {:induction false} SettledGrows(g: Graph, k: nat)
    ensures Settled(g, k) <= Settled(g, k + 1)
  {
    if k > 0 { SettledGrows(g, k - 1); }
  }

  lemma {:induction false} SettledMonotone(g: Graph, j: nat, k: nat)
    requires j <= k
    ensures Settled(g, j) <= Settled(g, k)
    decreases k - j
  {
    if j < k {
      SettledMonotone(g, j, k - 1);
      SettledGrows(g, k - 1);
    }
  }

  lemma ChainInit(g: Graph, c: seq<nat>)
    requires IsChain(g, c) && |c| >= 2
    ensures ChainTo(g, c[..|c| - 1], c[|c| - 2]) && c[|c| - 2] in g[c[|c| - 1]]
  {
    var t := c[..|c| - 1];
    assert forall k :: 0 <= k < |t| - 1 ==> c[k] in g[c[k + 1]];
    assert c[|c| - 2] in g[c[(|c| - 2) + 1]];
  }

  lemma ChainSnoc(g: Graph, c: seq<nat>, d: nat, i: nat)
    requires ChainTo(g, c, d) && i < |g| && d in g[i]
    ensures ChainTo(g, c + [i], i)
  {
    var t := c + [i];
    forall k | 0 <= k < |t| - 1 ensures t[k] in g[t[k + 1]] {
      if k < |c| - 1 { assert c[k] in g[c[k + 1]]; }
    }
  }

  /** Settled before wave `k` means: no chain of more than `k` files ends here. */
  lemma {:induction false} SettledIff(g: Graph, k: nat, i: nat)
    requires i < |g|
    ensures i in Settled(g, k) <==> forall c :: ChainTo(g, c, i) ==> |c| <= k
  {
    assert ChainTo(g, [i], i);
    if k > 0 {
      if i in Settled(g, k) {
        forall c | ChainTo(g, c, i) ensures |c| <= k {
          if |c| >= 2 {
            ChainInit(g, c);
            SettledIff(g, k - 1, c[|c| - 2]);
          }
        }
      }
      if forall c :: ChainTo(g, c, i) ==> |c| <= k {
        forall d <- g[i] ensures d in Settled(g, k - 1) {
          SettledIff(g, k - 1, d);
          forall c | ChainTo(g, c, d) ensures |c| <= k - 1 { ChainSnoc(g, c, d, i); }
        }
      }
    }
  }

  // ---- settled in the end iff no cycle is reached ----

  lemma {:induction false} ChainSettlesBackwards(g: Graph, c: seq<nat>, a: nat, b: nat, k: nat)
    requires IsChain(g, c) && a <= b < |c| && c[b] in Settled(g, k)
    ensures k >= b - a && c[a] in Settled(g, k - (b - a))
    decreases b - a
  {
    if a < b {
      assert c[b - 1] in g[c[(b - 1) + 1]];
      ChainSettlesBackwards(g, c, a, b - 1, k - 1);
    }
  }

  lemma {:induction false} CycleNeverSettles(g: Graph, c: seq<nat>, a: nat, b: nat, k: nat)
    requires IsChain(g, c) && a < b < |c| && c[a] == c[b]
    ensures c[a] !in Settled(g, k)
    decreases k
  {
    if c[b] in Settled(g, k) {
      ChainSettlesBackwards(g, c, a, b, k);
      CycleNeverSettles(g, c, a, b, k - (b - a));
    }
  }

  lemma CycleReachedNeverSettles(g: Graph, i: nat, k: nat)
    requires i < |g| && ReachesCycle(g, i)
    ensures i !in Settled(g, k)
  {
    var c, a, b :| ChainTo(g, c, i) && 0 <= a < b < |c| && c[a] == c[b];
    if i in Settled(g, k) {
      ChainSettlesBackwards(g, c, a, |c| - 1, k);
      CycleNeverSettles(g, c, a, b, k - (|c| - 1 - a));
    }
  }

  /** Without a cycle every chain visits distinct files, so it is no longer than the file list. */
  lemma AcyclicSettles(g: Graph, i: nat)
    requires i < |g| && !ReachesCycle(g, i)
    ensures i in Settled(g, |g|)
  {
    SettledIff(g, |g|, i);
    forall c | ChainTo(g, c, i) ensures |c| <= |g| {
      if |c| > |g| {
        Pigeonhole(c, |g|);
      }
    }
  }

  /** The files some wave settles are exactly those with no transitive dependency on a cycle. */
  lemma EventuallySettledIff(g: Graph, i: nat)
    requires i < |g|
    ensures i in Settled(g, |g|) <==> !ReachesCycle(g, i)
    ensures forall k :: i in Settled(g, k) ==> i in Settled(g, |g|)
  {
    if ReachesCycle(g, i) { CycleReachedNeverSettles(g, i, |g|); } else { AcyclicSettles(g, i); }
    forall k | i in Settled(g, k) ensures i in Settled(g, |g|) {
      if ReachesCycle(g, i) { CycleReachedNeverSettles(g, i, k); }
    }
  }

  /** Wave number `k`: settled in this wave and not before. */
  ghost predicate AtLevel(g: Graph, i: nat, k: nat)
  {
    i < |g| && i in Settled(g, k + 1) && i !in Settled(g, k)
  }

  /** The level of a file is the number of steps of its longest dependency chain. */
  lemma LevelIsLongestChain(g: Graph, i: nat, k: nat)
    requires i < |g|
    ensures AtLevel(g, i, k) <==>
      (exists c :: ChainTo(g, c, i) && |c| == k + 1) && forall c :: ChainTo(g, c, i) ==> |c| <= k + 1
  {
    SettledIff(g, k, i);
    SettledIff(g, k + 1, i);
  }

  // ---- counting open dependencies ----

  function Mult(s: seq<nat>, x: nat): nat
  {
    if s == [] then 0 else Mult(s[..|s| - 1], x) + if s[|s| - 1] == x then 1 else 0
  }

  /** Entries of `s` outside `done`. */
  ghost function Open(s: seq<nat>, done: set<nat>): nat
  {
    if s == [] then 0 else Open(s[..|s| - 1], done) + if s[|s| - 1] in done then 0 else 1
  }

  lemma {:induction false} OpenGrow(s: seq<nat>, done: set<nat>, x: nat)
    requires x !in done
    ensures Open(s, done + {x}) == Open(s, done) - Mult(s, x)
  {
    if s != [] { OpenGrow(s[..|s| - 1], done, x); }
  }

  lemma {:induction false} OpenZero(s: seq<nat>, done: set<nat>)
    ensures Open(s, done) == 0 <==> forall d <- s :: d in done
  {
    if s != [] {
      OpenZero(s[..|s| - 1], done);
      assert s == s[..|s| - 1] + [s[|s| - 1]];
    }
  }

  lemma {:induction false} OpenNothing(s: seq<nat>)
    ensures Open(s, {}) == |s|
  {
    if s != [] { OpenNothing(s[..|s| - 1]); }
  }

  lemma {:induction false} MultPrefix(s: seq<nat>, t: nat, x: nat)
    requires t < |s|
    ensures Mult(s[..t], x) + (if s[t] == x then 1 else 0) <= Mult(s, x)
  {
    if t == |s| - 1 {
    } else {
      assert s[..|s| - 1][..t] == s[..t];
      MultPrefix(s[..|s| - 1], t, x);
    }
  }

  lemma MultSnoc(s: seq<nat>, y: nat, x: nat)
    ensures Mult(s + [y], x) == Mult(s, x) + if y == x then 1 else 0
  {
    assert (s + [y])[..|s|] == s;
  }

  // ---- the maps of the algorithm ----

  function Deg(inDegree: map<nat, int>, i: nat): int { if i in inDegree then inDegree[i] else 0 }

  function Adj(adj: map<nat, seq<nat>>, j: nat): seq<nat> { if j in adj then adj[j] else [] }

  /** The edges entered so far: all those of the files below `n`, and `part` of those of file `n`. */
  function Entered(g: Graph, n: nat, part: seq<nat>, i: nat): seq<nat>
    requires n <= |g|
  {
    if i < n then g[i] else if i == n then part else []
  }

  /** `inDegree` counts the edges entered, `adj` holds them reversed. */
  ghost predicate Built(g: Graph, inDegree: map<nat, int>, adj: map<nat, seq<nat>>, n: nat, part: seq<nat>)
    requires n <= |g|
  {
    && (forall i: nat :: Deg(inDegree, i) == |Entered(g, n, part, i)|)
    && (forall j: nat, i: nat :: Mult(Adj(adj, j), i) == Mult(Entered(g, n, part, i), j))
    && (forall j: nat, x :: x in Adj(adj, j) ==> x <= n && (part == [] ==> x < n))
  }

  lemma AddEdge(g: Graph, inDegree: map<nat, int>, adj: map<nat, seq<nat>>, n: nat, part: seq<nat>, j: nat)
    requires n < |g| && Built(g, inDegree, adj, n, part)
    ensures Built(g, inDegree[n := Deg(inDegree, n) + 1], adj[j := Adj(adj, j) + [n]], n, part + [j])
  {
    var inDegree', adj' := inDegree[n := Deg(inDegree, n) + 1], adj[j := Adj(adj, j) + [n]];
    assert Deg(inDegree, n) == |Entered(g, n, part, n)|;
    forall i: nat ensures Deg(inDegree', i) == |Entered(g, n, part + [j], i)| {
      assert Deg(inDegree, i) == |Entered(g, n, part, i)|;
    }
    forall k: nat, i: nat ensures Mult(Adj(adj', k), i) == Mult(Entered(g, n, part + [j], i), k) {
      MultSnoc(Adj(adj, j), n, i);
      MultSnoc(part, j, k);
      assert Mult(Adj(adj, k), i) == Mult(Entered(g, n, part, i), k);
    }
    forall k: nat, x | x in Adj(adj', k) ensures x <= n {
      assert x in Adj(adj, k) || x == n;
    }
  }

  lemma NextFile(g: Graph, inDegree: map<nat, int>, adj: map<nat, seq<nat>>, n: nat)
    requires n < |g| && Built(g, inDegree, adj, n, g[n])
    ensures Built(g, inDegree, adj, n + 1, [])
  {
    forall i: nat ensures Deg(inDegree, i) == |Entered(g, n + 1, [], i)| {
      assert Deg(inDegree, i) == |Entered(g, n, g[n], i)|;
    }
    forall j: nat, i: nat ensures Mult(Adj(adj, j), i) == Mult(Entered(g, n + 1, [], i), j) {
      assert Mult(Adj(adj, j), i) == Mult(Entered(g, n, g[n], i), j);
    }
  }

  lemma ResolveStep(files: seq<FileSpec>, deps: seq<string>, k: nat)
    requires k < |deps|
    ensures Resolve(files, deps[..k + 1])
         == Resolve(files, deps[..k]) + if IndexOf(files, deps[k]) >= 0 then [IndexOf(files, deps[k]) as nat] else []
  {
    assert deps[..k + 1][..k] == deps[..k];
  }

  /** The edges of one file. */
  method AddEdges(files: seq<FileSpec>, i: nat, inDegree0: map<nat, int>, adj0: map<nat, seq<nat>>)
    returns (inDegree: map<nat, int>, adj: map<nat, seq<nat>>)
    requires i < |files| && Built(GraphOf(files), inDegree0, adj0, i, [])
    ensures Built(GraphOf(files), inDegree, adj, i + 1, [])
  {
    ghost var g := GraphOf(files);
    var deps := files[i].deps;
    inDegree, adj := inDegree0, adj0;
    for k := 0 to |deps|
      invariant Built(g, inDegree, adj, i, Resolve(files, deps[..k]))
    {
      var j := IndexOf(files, deps[k]);
      ResolveStep(files, deps, k);
      if j >= 0 {
        AddEdge(g, inDegree, adj, i, Resolve(files, deps[..k]), j);
        adj := adj[j := Adj(adj, j) + [i]];
        inDegree := inDegree[i := Deg(inDegree, i) + 1];
      } else {
        assert Resolve(files, deps[..k]) + [] == Resolve(files, deps[..k]);
      }
    }
    assert deps[..|deps|] == deps;
    assert Resolve(files, deps) == g[i];
    NextFile(g, inDegree, adj, i);
  }

  method BuildGraph(files: seq<FileSpec>) returns (inDegree: map<nat, int>, adj: map<nat, seq<nat>>)
    ensures Built(GraphOf(files), inDegree, adj, |files|, [])
  {
    inDegree, adj := map[], map[];
    assert forall j: nat :: Adj(adj, j) == [];
    for i := 0 to |files|
      invariant Built(GraphOf(files), inDegree, adj, i, [])
    {
      inDegree, adj := AddEdges(files, i, inDegree, adj);
    }
  }

  // ---- one wave ----

  /** `inDegree` counts the dependencies outside `done`. */
  ghost predicate Counts(g: Graph, inDegree: map<nat, int>, done: set<nat>)
  {
    forall i: nat :: i < |g| ==> Deg(inDegree, i) == Open(g[i], done)
  }

  /** `next` lists, once each, the files outside `settled` whose count has reached zero. */
  ghost predicate Ready(g: Graph, inDegree: map<nat, int>, settled: set<nat>, next: seq<nat>)
  {
    Distinct(next) && forall i: nat :: i in next <==> i < |g| && i !in settled && Deg(inDegree, i) == 0
  }

  ghost predicate IsReverse(g: Graph, adj: map<nat, seq<nat>>)
  {
    && (forall j: nat, i: nat :: i < |g| ==> Mult(Adj(adj, j), i) == Mult(g[i], j))
    && (forall j: nat, x :: x in Adj(adj, j) ==> x < |g|)
  }

  lemma {:induction false} OpenMonotone(s: seq<nat>, a: set<nat>, b: set<nat>)
    requires a <= b
    ensures Open(s, b) <= Open(s, a)
  {
    if s != [] { OpenMonotone(s[..|s| - 1], a, b); }
  }

  lemma {:induction false} MultOpen(s: seq<nat>, done: set<nat>, x: nat)
    requires x !in done
    ensures Mult(s, x) <= Open(s, done)
  {
    if s != [] { MultOpen(s[..|s| - 1], done, x); }
  }

  /** A neighbour still to be visited along `adj[idx]` has a positive count and is not settled. */
  lemma NeighbourOpen(g: Graph, adj: map<nat, seq<nat>>, settled: set<nat>, done: set<nat>, idx: nat, t: nat)
    requires IsReverse(g, adj) && t < |Adj(adj, idx)| && idx !in done
    requires forall i: nat :: i < |g| && i in settled ==> Open(g[i], done) == 0
    ensures var nb := Adj(adj, idx)[t];
      nb < |g| && nb !in settled && Open(g[nb], done) - Mult(Adj(adj, idx)[..t], nb) > 0
  {
    var nb := Adj(adj, idx)[t];
    assert nb in Adj(adj, idx);
    MultPrefix(Adj(adj, idx), t, nb);
    MultOpen(g[nb], done, idx);
  }

  /** Visiting one file: its neighbours' counts go down, and those that reach zero are queued. */
  method Visit(ghost g: Graph, adj: map<nat, seq<nat>>, idx: nat, ghost settled: set<nat>, ghost done: set<nat>,
               inDegree0: map<nat, int>, next0: seq<nat>)
    returns (inDegree: map<nat, int>, next: seq<nat>)
    requires IsReverse(g, adj) && idx !in done
    requires Counts(g, inDegree0, done) && Ready(g, inDegree0, settled, next0)
    requires forall i: nat :: i < |g| && i in settled ==> Open(g[i], done) == 0
    ensures Counts(g, inDegree, done + {idx}) && Ready(g, inDegree, settled, next)
  {
    inDegree, next := inDegree0, next0;
    var neighbours := Adj(adj, idx);
    for t := 0 to |neighbours|
      invariant forall i: nat :: i < |g| ==> Deg(inDegree, i) == Open(g[i], done) - Mult(neighbours[..t], i)
      invariant Ready(g, inDegree, settled, next)
    {
      var nb := neighbours[t];
      NeighbourOpen(g, adj, settled, done, idx, t);
      assert neighbours[..t + 1] == neighbours[..t] + [nb];
      forall i: nat ensures Mult(neighbours[..t + 1], i) == Mult(neighbours[..t], i) + if nb == i then 1 else 0 {
        MultSnoc(neighbours[..t], nb, i);
      }
      inDegree := inDegree[nb := Deg(inDegree, nb) - 1];
      if inDegree[nb] == 0 {
        next := next + [nb];
      }
    }
    assert neighbours[..|neighbours|] == neighbours;
    forall i: nat | i < |g| ensures Deg(inDegree, i) == Open(g[i], done + {idx}) {
      OpenGrow(g[i], done, idx);
      assert Mult(Adj(adj, idx), i) == Mult(g[i], idx);
    }
  }

  // ---- the whole loop ----

  /** The queue of wave `k`. */
  ghost predicate IsWave(g: Graph, k: nat, queue: seq<nat>)
  {
    Distinct(queue) && forall i: nat :: i in queue <==> AtLevel(g, i, k)
  }

  /** Priorities written so far: the level for the files of `done`, nothing for the others. */
  ghost predicate Levelled(g: Graph, before: seq<FileSpec>, after: seq<FileSpec>, done: set<nat>)
  {
    && |before| == |after| == |g|
    && forall i: nat :: i < |g| ==>
         if i in done then after[i] == before[i].(priority := after[i].priority) && after[i].priority >= 0
           && AtLevel(g, i, after[i].priority)
         else after[i] == before[i]
  }

  lemma SettledOpen(g: Graph, k: nat, i: nat)
    requires i < |g|
    ensures i in Settled(g, k + 1) <==> Open(g[i], Settled(g, k)) == 0
  {
    OpenZero(g[i], Settled(g, k));
  }

  lemma LevelledStep(g: Graph, before: seq<FileSpec>, files: seq<FileSpec>, done: set<nat>, idx: nat, k: nat)
    requires Levelled(g, before, files, done) && idx !in done && AtLevel(g, idx, k)
    ensures Levelled(g, before, files[idx := files[idx].(priority := k)], done + {idx})
  {
  }

  lemma WaveSettles(g: Graph, k: nat, queue: seq<nat>)
    requires IsWave(g, k, queue)
    ensures Settled(g, k) + Elems(queue) == Settled(g, k + 1) && Settled(g, k) !! Elems(queue)
  {
    SettledGrows(g, k);
    forall i | i in Settled(g, k + 1) ensures i in Settled(g, k) + Elems(queue) {
      if i !in Settled(g, k) { assert AtLevel(g, i, k); }
    }
    forall i | i in Elems(queue) ensures i in Settled(g, k + 1) && i !in Settled(g, k) { assert AtLevel(g, i, k); }
  }

  lemma ReadyIsNextWave(g: Graph, k: nat, inDegree: map<nat, int>, next: seq<nat>)
    requires Counts(g, inDegree, Settled(g, k + 1)) && Ready(g, inDegree, Settled(g, k + 1), next)
    ensures IsWave(g, k + 1, next)
  {
    forall i: nat ensures i in next <==> AtLevel(g, i, k + 1) {
      if i < |g| { SettledOpen(g, k + 1, i); }
    }
  }

  lemma NothingReady(g: Graph, k: nat, inDegree: map<nat, int>)
    requires Counts(g, inDegree, Settled(g, k))
    ensures Ready(g, inDegree, Settled(g, k + 1), [])
    ensures forall i: nat :: i < |g| && i in Settled(g, k + 1) ==> Open(g[i], Settled(g, k)) == 0
  {
    forall i: nat | i < |g| ensures i in Settled(g, k + 1) <==> Open(g[i], Settled(g, k)) == 0 { SettledOpen(g, k, i); }
  }

  lemma StillClosed(g: Graph, settled: set<nat>, a: set<nat>, b: set<nat>)
    requires a <= b && forall i: nat :: i < |g| && i in settled ==> Open(g[i], a) == 0
    ensures forall i: nat :: i < |g| && i in settled ==> Open(g[i], b) == 0
  {
    forall i: nat | i < |g| && i in settled ensures Open(g[i], b) == 0 { OpenMonotone(g[i], a, b); }
  }

  lemma QueuePrefix(queue: seq<nat>, q: nat)
    requires q < |queue| && Distinct(queue)
    ensures Elems(queue[..q + 1]) == Elems(queue[..q]) + {queue[q]} && queue[q] !in Elems(queue[..q])
  {
    assert queue[..q + 1][..q] == queue[..q];
  }

  /** All files of one wave, in queue order. */
  method RunWave(ghost g: Graph, adj: map<nat, seq<nat>>, k: nat, queue: seq<nat>, inDegree0: map<nat, int>,
                 ghost before: seq<FileSpec>, files0: seq<FileSpec>)
    returns (inDegree: map<nat, int>, next: seq<nat>, files: seq<FileSpec>)
    requires IsReverse(g, adj) && IsWave(g, k, queue) && Counts(g, inDegree0, Settled(g, k))
    requires Levelled(g, before, files0, Settled(g, k))
    ensures Counts(g, inDegree, Settled(g, k + 1)) && IsWave(g, k + 1, next)
    ensures Levelled(g, before, files, Settled(g, k + 1))
  {
    WaveSettles(g, k, queue);
    NothingReady(g, k, inDegree0);
    forall q | 0 <= q < |queue| ensures AtLevel(g, queue[q], k) && queue[q] !in Settled(g, k) {
      assert queue[q] in queue;
    }
    inDegree, next, files := VisitAll(g, adj, k, queue, Settled(g, k), Settled(g, k + 1), inDegree0, before, files0);
    ReadyIsNextWave(g, k, inDegree, next);
  }

  method VisitAll(ghost g: Graph, adj: map<nat, seq<nat>>, k: nat, queue: seq<nat>, ghost start: set<nat>,
                  ghost settled: set<nat>, inDegree0: map<nat, int>,
                  ghost before: seq<FileSpec>, files0: seq<FileSpec>)
    returns (inDegree: map<nat, int>, next: seq<nat>, files: seq<FileSpec>)
    requires IsReverse(g, adj) && Distinct(queue) && Counts(g, inDegree0, start) && Levelled(g, before, files0, start)
    requires forall q :: 0 <= q < |queue| ==> AtLevel(g, queue[q], k) && queue[q] !in start
    requires Ready(g, inDegree0, settled, []) && forall i: nat :: i < |g| && i in settled ==> Open(g[i], start) == 0
    ensures Counts(g, inDegree, start + Elems(queue)) && Ready(g, inDegree, settled, next)
    ensures Levelled(g, before, files, start + Elems(queue))
  {
    inDegree, next, files := inDegree0, [], files0;
    ghost var done := start;
    for q := 0 to |queue|
      invariant done == start + Elems(queue[..q])
      invariant forall i: nat :: i < |g| && i in settled ==> Open(g[i], done) == 0
      invariant Counts(g, inDegree, done) && Ready(g, inDegree, settled, next)
      invariant Levelled(g, before, files, done)
    {
      var idx := queue[q];
      QueuePrefix(queue, q);
      LevelledStep(g, before, files, done, idx, k);
      files := files[idx := files[idx].(priority := k)];
      inDegree, next := Visit(g, adj, idx, settled, done, inDegree, next);
      StillClosed(g, settled, done, done + {idx});
      done := done + {idx};
    }
    assert queue[..|queue|] == queue;
  }

  lemma {:induction false} Fixpoint(g: Graph, k: nat, j: nat)
    requires Settled(g, k) == Settled(g, k + 1) && k <= j
    ensures Settled(g, j) == Settled(g, k)
    decreases j - k
  {
    if k < j { Fixpoint(g, k + 1, j); }
  }

  lemma QueueEmptyMeansDone(g: Graph, k: nat)
    requires IsWave(g, k, [])
    ensures Settled(g, k) == Settled(g, |g|)
  {
    WaveSettles(g, k, []);
    assert Elems([]) == {};
    if k <= |g| {
      Fixpoint(g, k, |g|);
    } else {
      forall i | i in Settled(g, k) ensures i in Settled(g, |g|) { EventuallySettledIff(g, i); }
      SettledMonotone(g, |g|, k);
    }
  }

  /** The files that depend, directly or not, on no cycle. */
  ghost function CycleFree(g: Graph): set<nat>
  {
    set i | i in Below(|g|) && !ReachesCycle(g, i)
  }

  lemma SettledIsCycleFree(g: Graph)
    ensures Settled(g, |g|) == CycleFree(g)
  {
    forall i: nat | i < |g| ensures i in Settled(g, |g|) <==> i in CycleFree(g) { EventuallySettledIff(g, i); }
  }

  /** The first queue: files without known dependencies, in list order. */
  method FirstWave(ghost g: Graph, n: nat, inDegree: map<nat, int>) returns (queue: seq<nat>)
    requires n == |g| && forall i: nat :: i < n ==> Deg(inDegree, i) == |g[i]|
    ensures IsWave(g, 0, queue) && Counts(g, inDegree, Settled(g, 0))
  {
    queue := [];
    for i := 0 to n
      invariant Distinct(queue) && forall x: nat :: x in queue <==> x < i && Deg(inDegree, x) == 0
    {
      if Deg(inDegree, i) == 0 { queue := queue + [i]; }
    }
    forall i: nat | i < n ensures Deg(inDegree, i) == Open(g[i], {}) { OpenNothing(g[i]); }
    forall i: nat ensures i in queue <==> AtLevel(g, i, 0) {
      if i < |g| { SettledOpen(g, 0, i); }
    }
  }

  lemma VisitedGrows(g: Graph, k: nat, visited: seq<nat>, queue: seq<nat>)
    requires Distinct(visited) && (forall i: nat :: i in visited <==> i in Settled(g, k)) && IsWave(g, k, queue)
    ensures Distinct(visited + queue) && forall i: nat :: i in visited + queue <==> i in Settled(g, k + 1)
  {
    WaveSettles(g, k, queue);
    forall i, j | 0 <= i < j < |visited + queue| ensures (visited + queue)[i] != (visited + queue)[j] {
      if i < |visited| <= j {
        assert (visited + queue)[i] in visited && queue[j - |visited|] in Elems(queue);
      }
    }
  }

  /** The wave loop: it terminates, and each file that reaches no cycle is visited exactly once and gets
      its level; the others keep the priority they came with. */
  method AssignPriorities(files0: seq<FileSpec>) returns (files: seq<FileSpec>, ghost visited: seq<nat>)
    ensures Levelled(GraphOf(files0), files0, files, CycleFree(GraphOf(files0)))
    ensures Distinct(visited) && forall i: nat :: i in visited <==> i in CycleFree(GraphOf(files0))
  {
    ghost var g := GraphOf(files0);
    var inDegree, adj := BuildGraph(files0);
    assert forall i: nat :: i < |g| ==> Entered(g, |g|, [], i) == g[i];
    var queue := FirstWave(g, |files0|, inDegree);
    files := files0;
    visited := [];
    var priority := 0;
    while |queue| > 0
      invariant IsWave(g, priority, queue) && Counts(g, inDegree, Settled(g, priority))
      invariant Levelled(g, files0, files, Settled(g, priority))
      invariant Distinct(visited) && forall i: nat :: i in visited <==> i in Settled(g, priority)
      decreases |Below(|g|) - Settled(g, priority)|
    {
      assert queue[0] in queue && AtLevel(g, queue[0], priority);
      SettledGrows(g, priority);
      FewerLeft(Below(|g|), Settled(g, priority), Settled(g, priority + 1), queue[0]);
      VisitedGrows(g, priority, visited, queue);
      visited := visited + queue;
      inDegree, queue, files := RunWave(g, adj, priority, queue, inDegree, files0, files);
      priority := priority + 1;
    }
    QueueEmptyMeansDone(g, priority);
    SettledIsCycleFree(g);
  }

  lemma FewerLeft(all: set<nat>, a: set<nat>, b: set<nat>, x: nat)
    requires a <= b && x in all && x in b && x !in a
    ensures |all - b| < |all - a|
  {
    SubsetCount(all - b, all - a - {x});
  }

  // ---- the stable sort ----

  /** Earlier in the stable order: smaller priority, or the same and earlier in the list. */
  predicate Before(files: seq<FileSpec>, i: nat, j: nat)
    requires i < |files| && j < |files|
  {
    files[i].priority < files[j].priority || (files[i].priority == files[j].priority && i < j)
  }

  ghost predicate Ordered(files: seq<FileSpec>, order: seq<nat>)
  {
    && (forall k :: 0 <= k < |order| ==> order[k] < |files|)
    && forall k, l :: 0 <= k < l < |order| ==> Before(files, order[k], order[l])
  }

  function InsertIndex(files: seq<FileSpec>, i: nat, order: seq<nat>): (r: seq<nat>)
    requires i < |files| && forall k :: 0 <= k < |order| ==> order[k] < |files|
    ensures forall x :: x in r <==> x == i || x in order
    ensures |r| == |order| + 1
    ensures forall k :: 0 <= k < |r| ==> r[k] < |files|
  {
    if order == [] then [i]
    else if Before(files, i, order[0]) then [i] + order
    else [order[0]] + InsertIndex(files, i, order[1..])
  }

  lemma HeadStaysFirst(files: seq<FileSpec>, i: nat, order: seq<nat>, r: seq<nat>)
    requires i < |files| && order != [] && Ordered(files, order) && Before(files, order[0], i)
    requires forall x :: x in r ==> x == i || x in order[1..]
    requires Ordered(files, r)
    ensures Ordered(files, [order[0]] + r)
  {
    forall k | 0 <= k < |r| ensures Before(files, order[0], r[k]) {
      assert r[k] in r;
      if r[k] != i {
        var m :| 0 <= m < |order[1..]| && order[1..][m] == r[k];
        assert Before(files, order[0], order[m + 1]);
      }
    }
  }

  lemma {:induction false} InsertOrdered(files: seq<FileSpec>, i: nat, order: seq<nat>)
    requires i < |files| && Ordered(files, order) && i !in order
    ensures Ordered(files, InsertIndex(files, i, order))
  {
    if order != [] && !Before(files, i, order[0]) {
      assert order[0] in order;
      InsertOrdered(files, i, order[1..]);
      HeadStaysFirst(files, i, order, InsertIndex(files, i, order[1..]));
    }
  }

  /** The indices of the first `n` files in stable order. */
  function StableOrder(files: seq<FileSpec>, n: nat): (order: seq<nat>)
    requires n <= |files|
    ensures |order| == n && Ordered(files, order) && forall x: nat :: x in order <==> x < n
  {
    if n == 0 then []
    else
      var rest := StableOrder(files, n - 1);
      InsertOrdered(files, n - 1, rest);
      InsertIndex(files, n - 1, rest)
  }

  lemma OrderedDistinct(files: seq<FileSpec>, order: seq<nat>)
    requires Ordered(files, order)
    ensures Distinct(order)
  {
    forall k, l | 0 <= k < l < |order| ensures order[k] != order[l] { assert Before(files, order[k], order[l]); }
  }

  // ---- the sorted files ----

  /** `after` is `levelled` rearranged by `order`. */
  ghost predicate Rearranged(levelled: seq<FileSpec>, after: seq<FileSpec>, order: seq<nat>)
  {
    && Permutes(order, |levelled|) && |after| == |levelled|
    && forall k :: 0 <= k < |order| ==> order[k] < |levelled| && after[k] == levelled[order[k]]
  }

  lemma DependencyLevelLower(g: Graph, i: nat, j: nat, k: nat, l: nat)
    requires i < |g| && j in g[i] && AtLevel(g, i, k) && AtLevel(g, j, l)
    ensures l < k
  {
    if l >= k {
      assert i in Settled(g, k + 1) && j in Settled(g, k);
      SettledMonotone(g, k, l);
    }
  }

  lemma CycleFreeLevels(g: Graph, before: seq<FileSpec>, levelled: seq<FileSpec>, i: nat)
    requires Levelled(g, before, levelled, CycleFree(g)) && i in CycleFree(g)
    ensures i < |g| == |levelled| && levelled[i].priority >= 0 && AtLevel(g, i, levelled[i].priority)
  {
  }

  lemma DependentReachesCycle(g: Graph, i: nat, j: nat)
    requires i < |g| && j in g[i] && ReachesCycle(g, j)
    ensures ReachesCycle(g, i)
  {
    var c, a, b :| ChainTo(g, c, j) && 0 <= a < b < |c| && c[a] == c[b];
    ChainSnoc(g, c, j, i);
    assert (c + [i])[a] == (c + [i])[b];
  }

  /** What a cycle-free file depends on is cycle-free. */
  lemma DependencyCycleFree(g: Graph, i: nat, j: nat)
    requires i in CycleFree(g) && j in g[i]
    ensures j in CycleFree(g)
  {
    if ReachesCycle(g, j) { DependentReachesCycle(g, i, j); }
  }

  lemma PrioritiesAscend(levelled: seq<FileSpec>, after: seq<FileSpec>, order: seq<nat>, a: nat, b: nat)
    requires Rearranged(levelled, after, order) && Ordered(levelled, order) && a <= b < |after|
    ensures after[a].priority <= after[b].priority
  {
    if a < b {
      assert Before(levelled, order[a], order[b]);
    }
  }

  /** The priority of file `i` is the number of steps of its longest dependency chain. */
  ghost predicate IsLongestChain(g: Graph, i: nat, priority: int)
  {
    && (exists c :: ChainTo(g, c, i) && |c| == priority + 1)
    && forall c :: ChainTo(g, c, i) ==> |c| <= priority + 1
  }

  /** On any graph, the priority of each file that reaches no cycle is the length of its longest
      dependency chain; on an acyclic graph that is every file. */
  lemma SortedFilesAreLevelled(g: Graph, before: seq<FileSpec>, levelled: seq<FileSpec>, after: seq<FileSpec>,
                               order: seq<nat>)
    requires Levelled(g, before, levelled, CycleFree(g))
    requires Rearranged(levelled, after, order) && Ordered(levelled, order)
    ensures forall k :: 0 <= k < |after| && order[k] in CycleFree(g) ==> IsLongestChain(g, order[k], after[k].priority)
  {
    forall k | 0 <= k < |after| && order[k] in CycleFree(g) ensures IsLongestChain(g, order[k], after[k].priority) {
      CycleFreeLevels(g, before, levelled, order[k]);
      LevelIsLongestChain(g, order[k], after[k].priority);
    }
  }

  /** And it stands after all its known dependencies. */
  lemma SortedFilesAreTopological(g: Graph, before: seq<FileSpec>, levelled: seq<FileSpec>, after: seq<FileSpec>,
                                  order: seq<nat>)
    requires Levelled(g, before, levelled, CycleFree(g))
    requires Rearranged(levelled, after, order) && Ordered(levelled, order)
    ensures forall k, l ::
      0 <= k < |after| && 0 <= l < |after| && order[k] in CycleFree(g) && order[l] in g[order[k]] ==> l < k
  {
    forall k: nat, l: nat | k < |after| && l < |after| && order[k] in CycleFree(g) && order[l] in g[order[k]]
      ensures l < k
    {
      DependencyCycleFree(g, order[k], order[l]);
      CycleFreeLevels(g, before, levelled, order[k]);
      CycleFreeLevels(g, before, levelled, order[l]);
      DependencyLevelLower(g, order[k], order[l], after[k].priority, after[l].priority);
      if k <= l {
        PrioritiesAscend(levelled, after, order, k, l);
      }
    }
  }

  /** Every known dependency stands before its dependents. */
  ghost predicate Topological(g: Graph, order: seq<nat>)
  {
    forall k, l :: 0 <= k < |order| && 0 <= l < |order| && order[k] < |g| && order[l] in g[order[k]] ==> l < k
  }

  lemma {:induction false} ChainInOrder(g: Graph, order: seq<nat>, c: seq<nat>, a: nat, b: nat) returns (x: nat, y: nat)
    requires Permutes(order, |g|) && Topological(g, order) && IsChain(g, c) && a <= b < |c|
    ensures x < |order| && y < |order| && order[x] == c[a] && order[y] == c[b] && (if a < b then x < y else x == y)
    decreases b - a
  {
    assert c[b] in order;
    var z :| 0 <= z < |order| && order[z] == c[b];
    y := z;
    if a == b {
      x := y;
    } else {
      var w;
      x, w := ChainInOrder(g, order, c, a, b - 1);
      assert c[b - 1] in g[c[(b - 1) + 1]];
    }
  }

  /** The whole list is in dependency order exactly when there is no cycle. */
  lemma TopologicalIffAcyclic(g: Graph, before: seq<FileSpec>, levelled: seq<FileSpec>, after: seq<FileSpec>,
                              order: seq<nat>)
    requires Levelled(g, before, levelled, CycleFree(g))
    requires Rearranged(levelled, after, order) && Ordered(levelled, order)
    ensures Topological(g, order) <==> Acyclic(g)
  {
    if Acyclic(g) {
      SortedFilesAreTopological(g, before, levelled, after, order);
      assert forall i: nat :: i < |g| ==> i in CycleFree(g);
    }
    if Topological(g, order) {
      forall i: nat | i < |g| ensures !ReachesCycle(g, i) {
        if ReachesCycle(g, i) {
          var c, a, b :| ChainTo(g, c, i) && 0 <= a < b < |c| && c[a] == c[b];
          var x, y := ChainInOrder(g, order, c, a, b);
        }
      }
    }
  }
}
