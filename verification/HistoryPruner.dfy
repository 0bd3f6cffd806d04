/** Pruning the agent loop's history: the first message, every pinned message and a recent suffix stay. */
module HistoryPruner {
  import opened Arithmetic
  import opened Conversation
  import Decimal

  function PinnedOf(ms: seq<Message>): (r: seq<Message>)
    ensures forall m <- r :: m in ms && m.pinned
    ensures forall m <- ms :: m.pinned ==> m in r
  {
    if ms == [] then []
    else
      var rest := PinnedOf(ms[..|ms| - 1]);
      if ms[|ms| - 1].pinned then rest + [ms[|ms| - 1]] else rest
  }

  function PinnedTokens(ms: seq<Message>, cost: string -> nat): nat
  {
    if ms == [] then 0
    else PinnedTokens(ms[..|ms| - 1], cost) + if ms[|ms| - 1].pinned then cost(ms[|ms| - 1].content) else 0
  }

  function Unpinned(ms: seq<Message>): (n: nat)
    ensures n <= |ms|
  {
    if ms == [] then 0 else (if ms[0].pinned then 0 else 1) + Unpinned(ms[1..])
  }

  function UnpinnedTools(ms: seq<Message>): nat
  {
    if ms == [] then 0 else (if !ms[0].pinned && ms[0].role.Tool? then 1 else 0) + UnpinnedTools(ms[1..])
  }

  function UnpinnedTokens(ms: seq<Message>, cost: string -> nat): nat
  {
    if ms == [] then 0 else (if ms[0].pinned then 0 else cost(ms[0].content)) + UnpinnedTokens(ms[1..], cost)
  }

  const HINT := "Your .plan.md file and workspace files are still intact — use read_file to re-read them if needed. "
                + "Continue from where the remaining messages left off.]"

  function Notice(pruned: nat, prunedTools: nat): Message
  {
    var text := "[Context pruned: " + Decimal.Print(pruned) + " earlier messages removed ("
                + Decimal.Print(prunedTools) + " tool results). " + HINT;
    Message(System, text, [], "", false)
  }

  /** What is left of 60% of the budget once the pinned messages are paid for. */
  function KeepBudget(ms: seq<Message>, maxTokens: int, cost: string -> nat): nat
    requires ms != []
  {
    var left := Quotient(maxTokens * 60, 100) - PinnedTokens(ms[1..], cost);
    if left < 0 then 0 else left
  }

  /** Counting back from the end stops at `stop`: all unpinned messages from there fit, one more would not. */
  ghost predicate FitsFrom(ms: seq<Message>, budget: nat, cost: string -> nat, stop: nat)
  {
    && 1 <= stop <= |ms|
    && UnpinnedTokens(ms[stop..], cost) <= budget
    && (stop == 1 || UnpinnedTokens(ms[stop - 1..], cost) > budget)
  }

  /** At least 4, and never the first message. */
  function Clamped(count: nat, n: nat): nat
    requires n > 5
  {
    var atLeast := if count < 4 then 4 else count;
    if atLeast >= n - 1 then n - 1 else atLeast
  }

  /** The first message, a notice of what was removed, and the pinned messages. */
  function Head(ms: seq<Message>, keep: nat): seq<Message>
    requires 1 <= keep < |ms|
  {
    var middle := ms[1..|ms| - keep];
    [ms[0], Notice(Unpinned(middle), UnpinnedTools(middle))] + PinnedOf(ms[1..])
  }

  function Assembled(ms: seq<Message>, keep: nat): seq<Message>
    requires 1 <= keep < |ms|
  {
    Head(ms, keep) + ms[|ms| - keep..]
  }

  lemma TailStep(ms: seq<Message>, i: nat)
    requires i < |ms|
    ensures ms[i..] != [] && ms[i..][0] == ms[i] && ms[i..][1..] == ms[i + 1..]
  {
  }

  lemma {:induction false} UnpinnedSnoc(ms: seq<Message>, m: Message)
    ensures Unpinned(ms + [m]) == Unpinned(ms) + if m.pinned then 0 else 1
    ensures UnpinnedTools(ms + [m]) == UnpinnedTools(ms) + if !m.pinned && m.role.Tool? then 1 else 0
  {
    if ms == [] {
      assert (ms + [m])[1..] == [];
    } else {
      assert (ms + [m])[1..] == ms[1..] + [m];
      UnpinnedSnoc(ms[1..], m);
    }
  }

  /** The backward count of recent unpinned messages that fit. */
  method CountFitting(ms: seq<Message>, budget: nat, cost: string -> nat) returns (keep: nat, stop: nat)
    requires ms != []
    ensures FitsFrom(ms, budget, cost, stop) && keep == Unpinned(ms[stop..])
  {
    keep := 0;
    var accumulated := 0;
    var i := |ms| - 1;
    while i >= 1
      invariant 0 <= i <= |ms| - 1
      invariant accumulated == UnpinnedTokens(ms[i + 1..], cost) <= budget
      invariant keep == Unpinned(ms[i + 1..])
    {
      TailStep(ms, i);
      if ms[i].pinned {
        i := i - 1;
        continue;
      }
      var msgTokens := cost(ms[i].content);
      if accumulated + msgTokens > budget {
        break;
      }
      accumulated := accumulated + msgTokens;
      keep := keep + 1;
      i := i - 1;
    }
    stop := i + 1;
  }

  /** The pinned messages after the first, and their tokens. */
  method CollectPinned(ms: seq<Message>, cost: string -> nat) returns (pinned: seq<Message>, tokens: nat)
    requires ms != []
    ensures pinned == PinnedOf(ms[1..]) && tokens == PinnedTokens(ms[1..], cost)
  {
    pinned, tokens := [], 0;
    for i := 1 to |ms|
      invariant pinned == PinnedOf(ms[1..i]) && tokens == PinnedTokens(ms[1..i], cost)
    {
      assert ms[1..i + 1][..i - 1] == ms[1..i];
      if ms[i].pinned {
        pinned := pinned + [ms[i]];
        tokens := tokens + cost(ms[i].content);
      }
    }
    assert ms[1..|ms|] == ms[1..];
  }

  method CountPruned(ms: seq<Message>, end: nat) returns (pruned: nat, tools: nat)
    requires 1 <= end <= |ms|
    ensures pruned == Unpinned(ms[1..end]) && tools == UnpinnedTools(ms[1..end])
  {
    pruned, tools := 0, 0;
    for i := 1 to end
      invariant pruned == Unpinned(ms[1..i]) && tools == UnpinnedTools(ms[1..i])
    {
      assert ms[1..i + 1] == ms[1..i] + [ms[i]];
      UnpinnedSnoc(ms[1..i], ms[i]);
      if !ms[i].pinned {
        pruned := pruned + 1;
        if ms[i].role.Tool? {
          tools := tools + 1;
        }
      }
    }
  }

  method Assemble(ms: seq<Message>, kept: nat, pinnedFromMiddle: seq<Message>) returns (result: seq<Message>)
    requires 1 <= kept < |ms| && pinnedFromMiddle == PinnedOf(ms[1..])
    ensures result == Assembled(ms, kept)
  {
    var prunedCount, prunedTools := CountPruned(ms, |ms| - kept);
    result := [ms[0], Notice(prunedCount, prunedTools)] + pinnedFromMiddle + ms[|ms| - kept..];
  }

  /** The pinned messages, and the budget they leave. */
  method Budget(ms: seq<Message>, maxTokens: int, cost: string -> nat)
    returns (pinnedFromMiddle: seq<Message>, adjustedBudget: nat)
    requires ms != []
    ensures pinnedFromMiddle == PinnedOf(ms[1..]) && adjustedBudget == KeepBudget(ms, maxTokens, cost)
  {
    var keepBudget := Quotient(maxTokens * 60, 100);
    var pinnedTokens;
    pinnedFromMiddle, pinnedTokens := CollectPinned(ms, cost);
    adjustedBudget := 0;
    if keepBudget - pinnedTokens >= 0 {
      adjustedBudget := keepBudget - pinnedTokens;
    }
  }

  method Clamp(count: nat, n: nat) returns (keep: nat)
    requires n > 5
    ensures keep == Clamped(count, n) && 4 <= keep < n
  {
    keep := count;
    if keep < 4 {
      keep := 4;
    }
    if keep >= n - 1 {
      keep := n - 1;
    }
  }

  lemma {:induction false} TokensOfSuffix(ms: seq<Message>, i: nat, cost: string -> nat)
    requires i <= |ms|
    ensures UnpinnedTokens(ms[i..], cost) <= UnpinnedTokens(ms, cost)
  {
    if i > 0 {
      assert ms[i..] == ms[1..][i - 1..];
      TokensOfSuffix(ms[1..], i - 1, cost);
    } else {
      assert ms[0..] == ms;
    }
  }

  /** Where the count stops that has come down to `i`. */
  function StopBelow(ms: seq<Message>, budget: nat, cost: string -> nat, i: nat): (stop: nat)
    requires 1 <= i <= |ms| && UnpinnedTokens(ms[i..], cost) <= budget
    ensures FitsFrom(ms, budget, cost, stop)
  {
    if i == 1 || UnpinnedTokens(ms[i - 1..], cost) > budget then i else StopBelow(ms, budget, cost, i - 1)
  }

  /** The count can stop in one place only. */
  lemma FitsOnce(ms: seq<Message>, budget: nat, cost: string -> nat, a: nat, b: nat)
    requires FitsFrom(ms, budget, cost, a) && FitsFrom(ms, budget, cost, b)
    ensures a == b
  {
    if a < b {
      assert ms[b - 1..] == ms[a..][b - 1 - a..];
      TokensOfSuffix(ms[a..], b - 1 - a, cost);
    } else if b < a {
      assert ms[a - 1..] == ms[b..][a - 1 - b..];
      TokensOfSuffix(ms[b..], a - 1 - b, cost);
    }
  }

  /** How many of the last messages pruning keeps. */
  function KeepOf(ms: seq<Message>, maxTokens: int, cost: string -> nat): (keep: nat)
    requires |ms| > 5
    ensures 4 <= keep < |ms|
  {
    var stop := StopBelow(ms, KeepBudget(ms, maxTokens, cost), cost, |ms|);
    Clamped(Unpinned(ms[stop..]), |ms|)
  }

  /** What pruning leaves. */
  function Pruned(ms: seq<Message>, maxTokens: int, cost: string -> nat): seq<Message>
  {
    if |ms| <= 5 then ms else Assembled(ms, KeepOf(ms, maxTokens, cost))
  }

  method PruneMessages(ms: seq<Message>, maxTokens: int, cost: string -> nat)
    returns (result: seq<Message>, ghost keep: nat, ghost stop: nat)
    ensures result == Pruned(ms, maxTokens, cost)
    ensures |ms| <= 5 ==> result == ms
    ensures |ms| > 5 ==>
      && FitsFrom(ms, KeepBudget(ms, maxTokens, cost), cost, stop)
      && keep == Clamped(Unpinned(ms[stop..]), |ms|)
      && result == Assembled(ms, keep)
  {
    keep, stop := 0, 0;
    if |ms| <= 5 {
      return ms, 0, 0;
    }
    var pinnedFromMiddle, adjustedBudget := Budget(ms, maxTokens, cost);
    var fitting, counted := CountFitting(ms, adjustedBudget, cost);
    var kept := Clamp(fitting, |ms|);
    keep, stop := kept, counted;
    FitsOnce(ms, adjustedBudget, cost, stop, StopBelow(ms, adjustedBudget, cost, |ms|));
    result := Assemble(ms, kept, pinnedFromMiddle);
  }

  // ---- what pruning keeps ----

  lemma {:induction false} UnpinnedAppend(a: seq<Message>, b: seq<Message>)
    ensures Unpinned(a + b) == Unpinned(a) + Unpinned(b)
  {
    if a == [] {
      assert a + b == b;
    } else {
      assert (a + b)[1..] == a[1..] + b;
      UnpinnedAppend(a[1..], b);
    }
  }

  /** The count covers only unpinned messages while the slice covers all, so the slice is never longer
      than what was counted: unless the minimum of 4 applied, its unpinned tokens are within budget. */
  lemma SuffixWithinBudget(ms: seq<Message>, budget: nat, cost: string -> nat, stop: nat, keep: nat)
    requires |ms| > 5 && FitsFrom(ms, budget, cost, stop) && keep == Clamped(Unpinned(ms[stop..]), |ms|)
    ensures 4 <= keep < |ms| && (keep == 4 || UnpinnedTokens(ms[|ms| - keep..], cost) <= budget)
  {
    var count := Unpinned(ms[stop..]);
    if count >= 4 {
      var cut := |ms| - keep;
      assert ms[cut..] == ms[stop..][cut - stop..];
      TokensOfSuffix(ms[stop..], cut - stop, cost);
    }
  }

  /** Every message is accounted for: the first stays first, all pinned ones are present, the suffix ends
      the result, and the unpinned ones are either in the suffix or in the reported count. */
  lemma NothingLost(ms: seq<Message>, keep: nat)
    requires 4 <= keep < |ms|
    ensures var r, cut := Assembled(ms, keep), |ms| - keep;
      && r[0] == ms[0]
      && (forall i :: 0 <= i < |ms| && (ms[i].pinned || i == 0 || i >= cut) ==> ms[i] in r)
      && |r| >= keep && r[|r| - keep..] == ms[cut..]
      && r[1] == Notice(Unpinned(ms[1..cut]), UnpinnedTools(ms[1..cut]))
      && Unpinned(ms[cut..]) + Unpinned(ms[1..cut]) == Unpinned(ms[1..])
  {
    var r, cut := Assembled(ms, keep), |ms| - keep;
    UnpinnedAppend(ms[1..cut], ms[cut..]);
    assert ms[1..cut] + ms[cut..] == ms[1..];
    forall i | 0 <= i < |ms| && (ms[i].pinned || i == 0 || i >= cut) ensures ms[i] in r {
      if i >= cut {
        assert ms[cut..][i - cut] == ms[i];
      } else if i > 0 {
        assert ms[1..][i - 1] == ms[i];
        assert ms[i] in PinnedOf(ms[1..]);
      }
    }
  }

  lemma {:induction false} PinnedOfAppend(a: seq<Message>, b: seq<Message>)
    ensures PinnedOf(a + b) == PinnedOf(a) + PinnedOf(b)
  {
    if b == [] {
      assert a + b == a;
    } else {
      assert (a + b)[..|a + b| - 1] == a + b[..|b| - 1];
      PinnedOfAppend(a, b[..|b| - 1]);
    }
  }

  /** A pinned message of the suffix is re-inserted although the suffix already carries it. */
  lemma PinnedSuffixRepeated(ms: seq<Message>, keep: nat) returns (head: seq<Message>)
    requires 4 <= keep < |ms|
    ensures Assembled(ms, keep) == head + PinnedOf(ms[|ms| - keep..]) + ms[|ms| - keep..]
  {
    var cut := |ms| - keep;
    PinnedOfAppend(ms[1..cut], ms[cut..]);
    assert ms[1..cut] + ms[cut..] == ms[1..];
    head := [ms[0], Notice(Unpinned(ms[1..cut]), UnpinnedTools(ms[1..cut]))] + PinnedOf(ms[1..cut]);
    assert Head(ms, keep) == head + PinnedOf(ms[cut..]);
  }
}
