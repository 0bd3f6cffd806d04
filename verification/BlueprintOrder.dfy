/** The wave sort of a blueprint, in terms of the files and the paths they name. */
module BlueprintOrder {
  import opened Counting
  import opened TopoSort

  // ---- dependencies ----

  /** File `i` names the path of file `j`, and `j` is the last file listed under it. */
  ghost predicate DependsOn(files: seq<FileSpec>, i: int, j: int)
  {
    && 0 <= i < |files| && 0 <= j < |files| && files[j].path in files[i].deps
    && forall k :: j < k < |files| ==> files[k].path != files[j].path
  }

  lemma {:induction false} ResolveIff(files: seq<FileSpec>, deps: seq<string>, j: nat)
    ensures j in Resolve(files, deps) <==>
      j < |files| && files[j].path in deps && forall k :: j < k < |files| ==> files[k].path != files[j].path
  {
    if deps != [] {
      var init, dep := deps[..|deps| - 1], deps[|deps| - 1];
      ResolveIff(files, init, j);
      assert deps == init + [dep];
      var n := IndexOf(files, dep);
      if j < |files| && files[j].path == dep && (forall k :: j < k < |files| ==> files[k].path != dep) {
        assert n == j;
      }
    }
  }

  /** The edges of the graph are the dependencies. */
  lemma GraphOfIff(files: seq<FileSpec>, i: nat, j: nat)
    requires i < |files|
    ensures j in GraphOf(files)[i] <==> DependsOn(files, i, j)
  {
    ResolveIff(files, files[i].deps, j);
  }

  /** Each file of the chain is a dependency of the next; the last is `i`. */
  ghost predicate DependencyChain(files: seq<FileSpec>, c: seq<nat>, i: nat)
  {
    && c != [] && c[|c| - 1] == i && (forall k :: 0 <= k < |c| ==> c[k] < |files|)
    && forall k :: 0 <= k < |c| - 1 ==> DependsOn(files, c[k + 1], c[k])
  }

  /** File `i` depends, directly or not, on a file that depends on itself. */
  ghost predicate Circular(files: seq<FileSpec>, i: nat)
  {
    exists c, a, b :: DependencyChain(files, c, i) && 0 <= a < b < |c| && c[a] == c[b]
  }

  lemma ChainIff(files: seq<FileSpec>, c: seq<nat>, i: nat)
    ensures ChainTo(GraphOf(files), c, i) <==> DependencyChain(files, c, i)
  {
    var g := GraphOf(files);
    if c != [] && forall k :: 0 <= k < |c| ==> c[k] < |files| {
      forall k | 0 <= k < |c| - 1 ensures c[k] in g[c[k + 1]] <==> DependsOn(files, c[k + 1], c[k]) {
        GraphOfIff(files, c[k + 1], c[k]);
      }
    }
  }

  lemma CircularIff(files: seq<FileSpec>, i: nat)
    ensures ReachesCycle(GraphOf(files), i) <==> Circular(files, i)
  {
    if ReachesCycle(GraphOf(files), i) {
      var c, a, b :| ChainTo(GraphOf(files), c, i) && 0 <= a < b < |c| && c[a] == c[b];
      ChainIff(files, c, i);
    }
    if Circular(files, i) {
      var c, a, b :| DependencyChain(files, c, i) && 0 <= a < b < |c| && c[a] == c[b];
      ChainIff(files, c, i);
    }
  }

  /** The priority of file `i` is the number of steps of its longest dependency chain. */
  ghost predicate Longest(files: seq<FileSpec>, i: nat, priority: int)
  {
    && (exists c :: DependencyChain(files, c, i) && |c| == priority + 1)
    && forall c :: DependencyChain(files, c, i) ==> |c| <= priority + 1
  }

  lemma LongestIff(files: seq<FileSpec>, i: nat, priority: int)
    ensures IsLongestChain(GraphOf(files), i, priority) <==> Longest(files, i, priority)
  {
    forall c ensures ChainTo(GraphOf(files), c, i) <==> DependencyChain(files, c, i) { ChainIff(files, c, i); }
    if IsLongestChain(GraphOf(files), i, priority) {
      var c :| ChainTo(GraphOf(files), c, i) && |c| == priority + 1;
      assert DependencyChain(files, c, i);
    }
    if Longest(files, i, priority) {
      var c :| DependencyChain(files, c, i) && |c| == priority + 1;
      assert ChainTo(GraphOf(files), c, i);
    }
  }

  // ---- the sort ----

  /** Where file `order[k]` now stands: unchanged but for its priority, which is the length of its longest chain, or
      what it was when the file is circular. */
  ghost predicate Placed(before: seq<FileSpec>, f: FileSpec, i: nat)
  {
    && i < |before| && f == before[i].(priority := f.priority)
    && if Circular(before, i) then f.priority == before[i].priority else Longest(before, i, f.priority)
  }

  /** All files, each once, by ascending priority, files of one priority in their old order. */
  ghost predicate Sorted(before: seq<FileSpec>, after: seq<FileSpec>, order: seq<nat>)
  {
    && Permutes(order, |before|) && |after| == |before|
    && (forall k :: 0 <= k < |after| ==> Placed(before, after[k], order[k]))
    && forall k, l :: 0 <= k < l < |after| ==>
         after[k].priority < after[l].priority || (after[k].priority == after[l].priority && order[k] < order[l])
  }

  lemma LevelledIsPlaced(before: seq<FileSpec>, levelled: seq<FileSpec>, i: nat)
    requires Levelled(GraphOf(before), before, levelled, CycleFree(GraphOf(before))) && i < |before|
    ensures i < |levelled| && Placed(before, levelled[i], i)
  {
    var g := GraphOf(before);
    CircularIff(before, i);
    if i in CycleFree(g) {
      LevelIsLongestChain(g, i, levelled[i].priority);
      LongestIff(before, i, levelled[i].priority);
    }
  }

  lemma LevelledIsSorted(before: seq<FileSpec>, levelled: seq<FileSpec>, after: seq<FileSpec>, order: seq<nat>)
    requires Levelled(GraphOf(before), before, levelled, CycleFree(GraphOf(before)))
    requires Rearranged(levelled, after, order) && Ordered(levelled, order)
    ensures Sorted(before, after, order)
  {
    forall k | 0 <= k < |after| ensures Placed(before, after[k], order[k]) {
      LevelledIsPlaced(before, levelled, order[k]);
    }
    forall k, l | 0 <= k < l < |after|
      ensures after[k].priority < after[l].priority || (after[k].priority == after[l].priority && order[k] < order[l])
    {
      assert TopoSort.Before(levelled, order[k], order[l]);
    }
  }

  class ProjectBlueprint {
    var files: seq<FileSpec>

    constructor (files: seq<FileSpec>)
      ensures this.files == files
    {
      this.files := files;
    }

    /** Levels for the files that are not circular, then a stable sort by priority. */
    method TopoSort() returns (ghost order: seq<nat>)
      modifies this
      ensures Sorted(old(files), files, order)
    {
      ghost var visited: seq<nat>;
      var graded: seq<FileSpec>;
      graded, visited := AssignPriorities(files);
      var sorted := StableOrder(graded, |graded|);
      OrderedDistinct(graded, sorted);
      order := sorted;
      ghost var before := files;
      files := seq(|graded|, k requires 0 <= k < |sorted| => graded[sorted[k]]);
      LevelledIsSorted(before, graded, files, order);
    }
  }

  // ---- what that means for dependencies ----

  lemma LongerThanDependency(files: seq<FileSpec>, i: nat, j: nat, p: int, q: int)
    requires DependsOn(files, i, j) && Longest(files, i, p) && Longest(files, j, q)
    ensures q < p
  {
    var c :| DependencyChain(files, c, j) && |c| == q + 1;
    var d := c + [i];
    forall k | 0 <= k < |d| - 1 ensures DependsOn(files, d[k + 1], d[k]) {
      if k < |c| - 1 { assert DependsOn(files, c[k + 1], c[k]); }
    }
    assert DependencyChain(files, d, i);
  }

  lemma DependencyNotCircular(files: seq<FileSpec>, i: nat, j: nat)
    requires DependsOn(files, i, j) && !Circular(files, i)
    ensures !Circular(files, j)
  {
    GraphOfIff(files, i, j);
    CircularIff(files, i);
    CircularIff(files, j);
    if Circular(files, j) { DependentReachesCycle(GraphOf(files), i, j); }
  }

  /** A file that is not circular stands after all its dependencies. */
  lemma AfterItsDependencies(before: seq<FileSpec>, after: seq<FileSpec>, order: seq<nat>, k: nat, l: nat)
    requires Sorted(before, after, order) && k < |after| && l < |after|
    requires !Circular(before, order[k]) && DependsOn(before, order[k], order[l])
    ensures l < k && after[l].priority < after[k].priority
  {
    assert Placed(before, after[k], order[k]) && Placed(before, after[l], order[l]);
    DependencyNotCircular(before, order[k], order[l]);
    LongerThanDependency(before, order[k], order[l], after[k].priority, after[l].priority);
  }

  /** Every file stands after all its dependencies. */
  ghost predicate InDependencyOrder(before: seq<FileSpec>, order: seq<nat>)
  {
    forall k, l :: 0 <= k < |order| && 0 <= l < |order| && DependsOn(before, order[k], order[l]) ==> l < k
  }

  /** The whole list is in dependency order exactly when no file is circular. */
  lemma InOrderIff(before: seq<FileSpec>, after: seq<FileSpec>, order: seq<nat>)
    requires Sorted(before, after, order)
    ensures InDependencyOrder(before, order) <==> forall i: nat :: i < |before| ==> !Circular(before, i)
  {
    var g := GraphOf(before);
    if forall i: nat :: i < |before| ==> !Circular(before, i) {
      forall k: nat, l: nat | k < |order| && l < |order| && DependsOn(before, order[k], order[l]) ensures l < k {
        AfterItsDependencies(before, after, order, k, l);
      }
    }
    if InDependencyOrder(before, order) {
      forall k, l | 0 <= k < |order| && 0 <= l < |order| && order[k] < |g| && order[l] in g[order[k]] ensures l < k {
        GraphOfIff(before, order[k], order[l]);
      }
      forall i: nat | i < |before| ensures !Circular(before, i) {
        CircularIff(before, i);
        if ReachesCycle(g, i) {
          var c, a, b :| ChainTo(g, c, i) && 0 <= a < b < |c| && c[a] == c[b];
          var x, y := ChainInOrder(g, order, c, a, b);
        }
      }
    }
  }
}
