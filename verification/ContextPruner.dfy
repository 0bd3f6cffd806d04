/** Fitting context into a token budget: greedy selection of code chunks, and of conversation messages. */
module ContextPruner {
  import opened Counting

  datatype CodeChunk = CodeChunk(symbol: string, content: string)

  /** The token estimate of each chunk. */
  function Costs(chunks: seq<CodeChunk>, estimate: string -> nat): (r: seq<nat>)
    ensures |r| == |chunks| && forall i :: 0 <= i < |r| ==> r[i] == estimate(chunks[i].content)
  {
    seq<nat>(|chunks|, i requires 0 <= i < |chunks| => estimate(chunks[i].content))
  }

  /** The cost of the chosen indices below `n`. */
  function CostOf(costs: seq<nat>, chosen: set<nat>, n: nat): nat
    requires n <= |costs|
  {
    if n == 0 then 0 else CostOf(costs, chosen, n - 1) + if n - 1 in chosen then costs[n - 1] else 0
  }

  function Total(costs: seq<nat>): nat
  {
    if costs == [] then 0 else Total(costs[..|costs| - 1]) + costs[|costs| - 1]
  }

  /** The chosen elements in their original order. */
  function Pick<T>(s: seq<T>, chosen: set<nat>): (r: seq<T>)
    ensures |r| <= |s|
  {
    if s == [] then []
    else
      var rest := Pick(s[..|s| - 1], chosen);
      if |s| - 1 in chosen then rest + [s[|s| - 1]] else rest
  }

  /** What `sort.Slice` by descending score may leave: any order that never goes up. */
  ghost predicate Ranked(scores: seq<real>, order: seq<nat>)
  {
    && Permutes(order, |scores|)
    && (forall k :: 0 <= k < |order| ==> order[k] < |scores|)
    && forall k, l :: 0 <= k < l < |order| ==> scores[order[k]] >= scores[order[l]]
  }

  lemma {:induction false} CostOfInsert(costs: seq<nat>, chosen: set<nat>, x: nat, n: nat)
    requires n <= |costs| && x !in chosen && x < |costs|
    ensures CostOf(costs, chosen + {x}, n) == CostOf(costs, chosen, n) + if x < n then costs[x] else 0
  {
    if n > 0 {
      CostOfInsert(costs, chosen, x, n - 1);
    }
  }

  lemma {:induction false} CostOfMonotone(costs: seq<nat>, a: set<nat>, b: set<nat>, n: nat)
    requires n <= |costs| && a <= b
    ensures CostOf(costs, a, n) <= CostOf(costs, b, n)
  {
    if n > 0 {
      CostOfMonotone(costs, a, b, n - 1);
    }
  }

  lemma {:induction false} CostOfEmpty(costs: seq<nat>, n: nat)
    requires n <= |costs|
    ensures CostOf(costs, {}, n) == 0
  {
    if n > 0 {
      CostOfEmpty(costs, n - 1);
    }
  }

  /** Picking keeps the cost of what is chosen. */
  lemma {:induction false} PickCost(chunks: seq<CodeChunk>, estimate: string -> nat, chosen: set<nat>)
    ensures Total(Costs(Pick(chunks, chosen), estimate)) == CostOf(Costs(chunks, estimate), chosen, |chunks|)
  {
    if chunks != [] {
      var n := |chunks| - 1;
      PickCost(chunks[..n], estimate, chosen);
      assert Costs(chunks, estimate)[..n] == Costs(chunks[..n], estimate);
      CostOfPrefix(Costs(chunks, estimate), chosen, n, n);
      if n in chosen {
        assert Costs(Pick(chunks, chosen), estimate) ==
          Costs(Pick(chunks[..n], chosen), estimate) + [estimate(chunks[n].content)];
      }
    }
  }

  lemma {:induction false} CostOfPrefix(costs: seq<nat>, chosen: set<nat>, n: nat, m: nat)
    requires m <= n <= |costs|
    ensures CostOf(costs[..n], chosen, m) == CostOf(costs, chosen, m)
  {
    if m > 0 {
      CostOfPrefix(costs, chosen, n, m - 1);
    }
  }

  // ---- the greedy selection ----

  /** The kept indices that score at least as high as `i`. */
  function AtLeast(scores: seq<real>, chosen: set<nat>, i: nat): set<nat>
    requires i < |scores|
  {
    set x | x in chosen && x < |scores| && scores[x] >= scores[i]
  }

  /** `i` did not fit: with the kept chunks scoring at least as high it exceeds the budget. */
  ghost predicate DidNotFit(costs: seq<nat>, scores: seq<real>, budget: int, chosen: set<nat>, i: nat)
    requires i < |costs| == |scores|
  {
    CostOf(costs, AtLeast(scores, chosen, i), |costs|) + costs[i] > budget
  }

  /** The ranks below `k` have been decided. */
  ghost predicate Decided(costs: seq<nat>, scores: seq<real>, order: seq<nat>, budget: int, chosen: set<nat>, k: nat)
    requires |costs| == |scores| && k <= |order|
  {
    && (forall x :: x in chosen ==> x in order[..k])
    && (forall j :: 0 <= j < k ==>
      order[j] < |costs| && (order[j] in chosen || DidNotFit(costs, scores, budget, chosen, order[j])))
  }

  /** Rank `k` does not fit on top of what was chosen from the ranks before it. */
  lemma SkipRank(costs: seq<nat>, scores: seq<real>, order: seq<nat>, budget: int, chosen: set<nat>, k: nat)
    requires |costs| == |scores| && Ranked(scores, order) && k < |order|
    requires Decided(costs, scores, order, budget, chosen, k)
    requires CostOf(costs, chosen, |costs|) + costs[order[k]] > budget
    ensures Decided(costs, scores, order, budget, chosen, k + 1)
  {
    forall x | x in chosen ensures x in AtLeast(scores, chosen, order[k]) && x in order[..k + 1] {
      var j :| 0 <= j < k && order[..k][j] == x;
      assert order[..k + 1][j] == x;
    }
    assert AtLeast(scores, chosen, order[k]) == chosen;
  }

  lemma TakeRank(costs: seq<nat>, scores: seq<real>, order: seq<nat>, budget: int, chosen: set<nat>, k: nat)
    requires |costs| == |scores| && Ranked(scores, order) && k < |order|
    requires Decided(costs, scores, order, budget, chosen, k)
    ensures order[k] !in chosen && Decided(costs, scores, order, budget, chosen + {order[k]}, k + 1)
  {
    var more := chosen + {order[k]};
    forall x | x in chosen ensures x in order[..k + 1] && x != order[k] {
      var j :| 0 <= j < k && order[..k][j] == x;
      assert order[..k + 1][j] == x;
    }
    assert order[..k + 1][k] == order[k];
    forall j | 0 <= j < k && order[j] !in more ensures DidNotFit(costs, scores, budget, more, order[j]) {
      assert DidNotFit(costs, scores, budget, chosen, order[j]);
      CostOfMonotone(costs, AtLeast(scores, chosen, order[j]), AtLeast(scores, more, order[j]), |costs|);
    }
  }

  method SelectGreedily(costs: seq<nat>, scores: seq<real>, order: seq<nat>, budget: int) returns (chosen: set<nat>)
    requires |costs| == |scores| && Ranked(scores, order)
    ensures CostOf(costs, chosen, |costs|) <= if budget < 0 then 0 else budget
    ensures forall x :: x in chosen ==> x < |costs|
    ensures forall i: nat :: i < |costs| ==> i in chosen || DidNotFit(costs, scores, budget, chosen, i)
  {
    chosen := {};
    var usedTokens := 0;
    CostOfEmpty(costs, |costs|);
    for k := 0 to |order|
      invariant usedTokens == CostOf(costs, chosen, |costs|) <= if budget < 0 then 0 else budget
      invariant Decided(costs, scores, order, budget, chosen, k)
    {
      if usedTokens + costs[order[k]] > budget {
        SkipRank(costs, scores, order, budget, chosen, k);
        continue;
      }
      TakeRank(costs, scores, order, budget, chosen, k);
      CostOfInsert(costs, chosen, order[k], |costs|);
      chosen := chosen + {order[k]};
      usedTokens := usedTokens + costs[order[k]];
    }
    AllDecided(costs, scores, order, budget, chosen);
  }

  lemma AllDecided(costs: seq<nat>, scores: seq<real>, order: seq<nat>, budget: int, chosen: set<nat>)
    requires |costs| == |scores| && Ranked(scores, order) && Decided(costs, scores, order, budget, chosen, |order|)
    ensures forall x :: x in chosen ==> x < |costs|
    ensures forall i: nat :: i < |costs| ==> i in chosen || DidNotFit(costs, scores, budget, chosen, i)
  {
    assert order[..|order|] == order;
    forall i: nat | i < |costs| ensures i in chosen || DidNotFit(costs, scores, budget, chosen, i) {
      assert i in order;
      var j :| 0 <= j < |order| && order[j] == i;
    }
  }

  /** The first pass: the token estimate of every chunk, and their sum. */
  method Estimate(chunks: seq<CodeChunk>, estimate: string -> nat) returns (costs: seq<nat>, totalTokens: nat)
    ensures costs == Costs(chunks, estimate) && totalTokens == Total(costs)
  {
    costs, totalTokens := [], 0;
    for i := 0 to |chunks|
      invariant costs == Costs(chunks[..i], estimate) && totalTokens == Total(costs)
    {
      var tokens := estimate(chunks[i].content);
      totalTokens := totalTokens + tokens;
      costs := costs + [tokens];
      assert costs[..i] == Costs(chunks[..i], estimate);
    }
    assert chunks[..|chunks|] == chunks;
  }

  /** The last pass: the selected chunks in their original order. */
  method Assemble(chunks: seq<CodeChunk>, selected: set<nat>) returns (result: seq<CodeChunk>)
    ensures result == Pick(chunks, selected)
  {
    result := [];
    for i := 0 to |chunks|
      invariant result == Pick(chunks[..i], selected)
    {
      assert chunks[..i + 1][..i] == chunks[..i];
      if i in selected {
        result := result + [chunks[i]];
      }
    }
    assert chunks[..|chunks|] == chunks;
  }

  /** `order` is how the sort left the scores; a result shorter than the input keeps exactly `chosen`. */
  method PruneCodeChunks(chunks: seq<CodeChunk>, estimate: string -> nat, scores: seq<real>, order: seq<nat>,
                         budget: int)
    returns (result: seq<CodeChunk>, chosen: set<nat>)
    requires |scores| == |chunks| && Ranked(scores, order)
    ensures chunks == [] || Total(Costs(chunks, estimate)) <= budget ==> result == chunks
    ensures chunks != [] && Total(Costs(chunks, estimate)) > budget ==>
      && result == Pick(chunks, chosen)
      && Total(Costs(result, estimate)) <= (if budget < 0 then 0 else budget)
      && forall i: nat :: i < |chunks| ==> i in chosen || DidNotFit(Costs(chunks, estimate), scores, budget, chosen, i)
  {
    result, chosen := chunks, {};
    if |chunks| == 0 {
      return;
    }
    var costs, totalTokens := Estimate(chunks, estimate);
    if totalTokens <= budget {
      return;
    }
    chosen := SelectGreedily(costs, scores, order, budget);
    result := Assemble(chunks, chosen);
    PickCost(chunks, estimate, chosen);
  }

  /** Nothing dropped can be added back. */
  lemma NothingFitsBack(costs: seq<nat>, scores: seq<real>, budget: int, chosen: set<nat>, i: nat)
    requires |costs| == |scores| && i < |costs| && i !in chosen && DidNotFit(costs, scores, budget, chosen, i)
    ensures CostOf(costs, chosen + {i}, |costs|) > budget
  {
    CostOfMonotone(costs, AtLeast(scores, chosen, i), chosen, |costs|);
    CostOfInsert(costs, chosen, i, |costs|);
  }
}
