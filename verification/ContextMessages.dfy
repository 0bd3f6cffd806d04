/** Fitting a conversation into a token budget: system and pinned messages first, the last four others
    always, and as many of the rest as fit, most recent first. */
module ContextMessages {
  import opened Arithmetic
  import opened Conversation
  import Decimal

  const MAX_TOOL_RESULT_BYTES: nat := 2000

  function HumanBytes(n: nat): string
  {
    if n < 1024 then Decimal.Print(n) + "B"
    else if n < 1024 * 1024 then Decimal.Print(n / 1024) + "KB"
    else Decimal.Print(n / (1024 * 1024)) + "MB"
  }

  function Omission(n: nat): string { "\n\n[... truncated " + HumanBytes(n) + " ...]\n\n" }

  /** An oversized tool result keeps its first and last 1000 bytes. */
  function Truncated(m: Message): Message
  {
    if !m.role.Tool? || |m.content| <= MAX_TOOL_RESULT_BYTES then m
    else
      var headLen := MAX_TOOL_RESULT_BYTES / 2;
      var tailLen := MAX_TOOL_RESULT_BYTES - headLen;
      m.(content := m.content[..headLen] + Omission(|m.content| - headLen - tailLen)
                    + m.content[|m.content| - tailLen..])
  }

  function Compacted(ms: seq<Message>): (r: seq<Message>)
    ensures |r| == |ms|
  {
    seq(|ms|, i requires 0 <= i < |ms| => Truncated(ms[i]))
  }

  datatype Class = SystemClass | PinnedClass | OtherClass

  function ClassOf(m: Message): Class
  {
    if m.role.System? then SystemClass else if m.pinned then PinnedClass else OtherClass
  }

  function OfClass(ms: seq<Message>, c: Class): (r: seq<Message>)
    ensures |r| <= |ms|
  {
    if ms == [] then []
    else
      var rest := OfClass(ms[..|ms| - 1], c);
      if ClassOf(ms[|ms| - 1]) == c then rest + [ms[|ms| - 1]] else rest
  }

  /** The chosen elements from index `i` on, in order. */
  function PickFrom(s: seq<Message>, chosen: set<nat>, i: nat): seq<Message>
    requires i <= |s|
    decreases |s| - i
  {
    if i == |s| then []
    else if i in chosen then [s[i]] + PickFrom(s, chosen, i + 1)
    else PickFrom(s, chosen, i + 1)
  }

  /** Message `j` is reached before the budget is used up by the kept messages after it, and still fits. */
  predicate Takes(middle: seq<Message>, chosen: set<nat>, budget: int, estimate: string -> nat, j: nat)
    requires j < |middle|
  {
    var later := Tokens(PickFrom(middle, chosen, j + 1), estimate);
    later < budget && later + estimate(middle[j].content) <= budget
  }

  predicate Decided(middle: seq<Message>, chosen: set<nat>, budget: int, estimate: string -> nat, j: nat)
    requires j < |middle|
  {
    j in chosen <==> Takes(middle, chosen, budget, estimate, j)
  }

  /** The choice made from the most recent message backwards. */
  ghost predicate RecentFirst(middle: seq<Message>, chosen: set<nat>, budget: int, estimate: string -> nat, from: nat)
  {
    && (forall x :: x in chosen ==> from <= x < |middle|)
    && forall j: nat :: from <= j < |middle| ==> Decided(middle, chosen, budget, estimate, j)
  }

  /** One pass over the messages, each to the end of its list. */
  method Separate(ms: seq<Message>)
    returns (systemMsgs: seq<Message>, pinnedMsgs: seq<Message>, otherMsgs: seq<Message>)
    ensures systemMsgs == OfClass(ms, SystemClass) && pinnedMsgs == OfClass(ms, PinnedClass)
      && otherMsgs == OfClass(ms, OtherClass)
  {
    systemMsgs, pinnedMsgs, otherMsgs := [], [], [];
    for i := 0 to |ms|
      invariant systemMsgs == OfClass(ms[..i], SystemClass)
      invariant pinnedMsgs == OfClass(ms[..i], PinnedClass)
      invariant otherMsgs == OfClass(ms[..i], OtherClass)
    {
      assert ms[..i + 1][..i] == ms[..i];
      if ms[i].role.System? {
        systemMsgs := systemMsgs + [ms[i]];
      } else if ms[i].pinned {
        pinnedMsgs := pinnedMsgs + [ms[i]];
      } else {
        otherMsgs := otherMsgs + [ms[i]];
      }
    }
    assert ms[..|ms|] == ms;
  }

  lemma {:induction false} PickIgnoresEarlier(s: seq<Message>, chosen: set<nat>, x: nat, i: nat)
    requires x < i <= |s|
    ensures PickFrom(s, chosen + {x}, i) == PickFrom(s, chosen, i)
    decreases |s| - i
  {
    if i < |s| {
      PickIgnoresEarlier(s, chosen, x, i + 1);
    }
  }

  /** What comes before a message does not matter to it. */
  lemma TakesIgnoresEarlier(middle: seq<Message>, chosen: set<nat>, budget: int, estimate: string -> nat, x: nat,
                            j: nat)
    requires x <= j < |middle|
    ensures Takes(middle, chosen + {x}, budget, estimate, j) == Takes(middle, chosen, budget, estimate, j)
  {
    PickIgnoresEarlier(middle, chosen, x, j + 1);
  }

  /** One message further back, kept or not. */
  lemma OneMore(middle: seq<Message>, chosen: set<nat>, budget: int, estimate: string -> nat, i: nat, more: set<nat>)
    requires i < |middle| && RecentFirst(middle, chosen, budget, estimate, i + 1)
    requires more == if Takes(middle, chosen, budget, estimate, i) then chosen + {i} else chosen
    ensures RecentFirst(middle, more, budget, estimate, i)
  {
    forall j: nat | i <= j < |middle| ensures Decided(middle, more, budget, estimate, j) {
      TakesIgnoresEarlier(middle, chosen, budget, estimate, i, j);
      if j > i { assert Decided(middle, chosen, budget, estimate, j); }
    }
  }

  /** Fill the budget from the most recent message backwards, skipping what does not fit. */
  method FillMiddle(middle: seq<Message>, budget: int, estimate: string -> nat)
    returns (kept: seq<Message>, chosen: set<nat>)
    ensures kept == PickFrom(middle, chosen, 0) && RecentFirst(middle, chosen, budget, estimate, 0)
    ensures Tokens(kept, estimate) <= if budget < 0 then 0 else budget
  {
    kept, chosen := [], {};
    var midTokens := 0;
    var i := |middle|;
    while i > 0 && midTokens < budget
      invariant 0 <= i <= |middle|
      invariant kept == PickFrom(middle, chosen, i) && RecentFirst(middle, chosen, budget, estimate, i)
      invariant midTokens == Tokens(kept, estimate) <= if budget < 0 then 0 else budget
    {
      i := i - 1;
      ghost var before := chosen;
      var t := estimate(middle[i].content);
      if midTokens + t <= budget {
        PickIgnoresEarlier(middle, chosen, i, i + 1);
        kept := [middle[i]] + kept;
        chosen := chosen + {i};
        midTokens := midTokens + t;
      }
      OneMore(middle, before, budget, estimate, i, chosen);
    }
    NothingFurther(middle, chosen, budget, estimate, i);
  }

  /** Once the budget is used up, nothing further back is taken. */
  lemma NothingFurther(middle: seq<Message>, chosen: set<nat>, budget: int, estimate: string -> nat, i: nat)
    requires i <= |middle| && RecentFirst(middle, chosen, budget, estimate, i)
    requires i > 0 ==> Tokens(PickFrom(middle, chosen, i), estimate) >= budget
    ensures RecentFirst(middle, chosen, budget, estimate, 0)
      && PickFrom(middle, chosen, 0) == PickFrom(middle, chosen, i)
  {
    NothingBefore(middle, chosen, i, 0);
    forall j: nat | j < |middle| ensures Decided(middle, chosen, budget, estimate, j) {
      if j < i { NothingBefore(middle, chosen, i, j + 1); }
    }
  }

  lemma {:induction false} NothingBefore(s: seq<Message>, chosen: set<nat>, i: nat, j: nat)
    requires j <= i <= |s| && forall x :: x in chosen ==> x >= i
    ensures PickFrom(s, chosen, j) == PickFrom(s, chosen, i)
    decreases i - j
  {
    if j < i {
      NothingBefore(s, chosen, i, j + 1);
    }
  }

  /** The last messages of the others, at most four. */
  function Tail(ms: seq<Message>): seq<Message>
  {
    var others := OfClass(ms, OtherClass);
    others[|others| - Least(4, |others|)..]
  }

  /** What is kept whatever it costs: system messages, pinned messages and the last four others. */
  function Mandatory(ms: seq<Message>): seq<Message>
  {
    OfClass(ms, SystemClass) + OfClass(ms, PinnedClass) + Tail(ms)
  }

  /** The older messages that compete for what is left. */
  function Middle(ms: seq<Message>): seq<Message>
  {
    var others := OfClass(ms, OtherClass);
    others[..|others| - Least(4, |others|)]
  }

  /** System messages, pinned messages, `kept` and the tail. */
  function PrunedTo(ms: seq<Message>, kept: seq<Message>): seq<Message>
  {
    OfClass(ms, SystemClass) + OfClass(ms, PinnedClass) + kept + Tail(ms)
  }

  lemma MandatoryTokens(ms: seq<Message>, estimate: string -> nat)
    ensures Tokens(Mandatory(ms), estimate) ==
      Tokens(OfClass(ms, SystemClass), estimate) + Tokens(OfClass(ms, PinnedClass), estimate)
      + Tokens(Tail(ms), estimate)
  {
    TokensAppend(OfClass(ms, SystemClass), OfClass(ms, PinnedClass), estimate);
    TokensAppend(OfClass(ms, SystemClass) + OfClass(ms, PinnedClass), Tail(ms), estimate);
  }

  method PruneMessages(messages: seq<Message>, tokenBudget: int, estimate: string -> nat)
    returns (result: seq<Message>, kept: seq<Message>, chosen: set<nat>)
    ensures var ms := Compacted(messages);
      if messages == [] || Tokens(ms, estimate) <= tokenBudget then result == ms
      else Fitted(ms, tokenBudget, estimate, kept, chosen, result)
  {
    kept, chosen := [], {};
    if |messages| == 0 {
      return messages, [], {};
    }
    var ms := Compacted(messages);
    var totalTokens := CountTokens(ms, estimate);
    if totalTokens <= tokenBudget {
      return ms, [], {};
    }
    var systemMsgs, pinnedMsgs, otherMsgs := Separate(ms);
    var keepTail := 4;
    if keepTail > |otherMsgs| {
      keepTail := |otherMsgs|;
    }
    var tail := otherMsgs[|otherMsgs| - keepTail..];
    var systemTokens := CountTokens(systemMsgs, estimate);
    var pinnedTokens := CountTokens(pinnedMsgs, estimate);
    var tailTokens := CountTokens(tail, estimate);
    var remainingBudget := tokenBudget - systemTokens - pinnedTokens - tailTokens;
    kept, chosen := FillMiddle(otherMsgs[..|otherMsgs| - keepTail], remainingBudget, estimate);
    result := systemMsgs + pinnedMsgs + kept + tail;
    IsFitted(ms, tokenBudget, estimate, kept, chosen, keepTail, remainingBudget);
  }

  /** `kept` is the choice among the middle messages that `left` tokens allow, the most recent first. */
  ghost predicate Fills(ms: seq<Message>, kept: seq<Message>, chosen: set<nat>, left: int, estimate: string -> nat)
  {
    && kept == PickFrom(Middle(ms), chosen, 0) && RecentFirst(Middle(ms), chosen, left, estimate, 0)
    && Tokens(kept, estimate) <= if left < 0 then 0 else left
  }

  /** The mandatory messages, and among the middle ones the choice that the rest of the budget allows. */
  ghost predicate Fitted(ms: seq<Message>, budget: int, estimate: string -> nat, kept: seq<Message>, chosen: set<nat>,
                         result: seq<Message>)
  {
    result == PrunedTo(ms, kept) && Fills(ms, kept, chosen, budget - Tokens(Mandatory(ms), estimate), estimate)
  }

  lemma IsFitted(ms: seq<Message>, budget: int, estimate: string -> nat, kept: seq<Message>, chosen: set<nat>,
                 keepTail: nat, left: int)
    requires var others := OfClass(ms, OtherClass);
      && keepTail == Least(4, |others|)
      && left == budget - Tokens(OfClass(ms, SystemClass), estimate) - Tokens(OfClass(ms, PinnedClass), estimate)
                 - Tokens(others[|others| - keepTail..], estimate)
      && kept == PickFrom(others[..|others| - keepTail], chosen, 0)
      && RecentFirst(others[..|others| - keepTail], chosen, left, estimate, 0)
      && Tokens(kept, estimate) <= if left < 0 then 0 else left
    ensures var others := OfClass(ms, OtherClass);
      Fitted(ms, budget, estimate, kept, chosen,
             OfClass(ms, SystemClass) + OfClass(ms, PinnedClass) + kept + others[|others| - keepTail..])
  {
    MandatoryTokens(ms, estimate);
  }

  // ---- what pruning keeps ----

  lemma {:induction false} ClassesPartition(ms: seq<Message>)
    ensures multiset(ms) ==
      multiset(OfClass(ms, SystemClass)) + multiset(OfClass(ms, PinnedClass)) + multiset(OfClass(ms, OtherClass))
  {
    if ms != [] {
      ClassesPartition(ms[..|ms| - 1]);
      assert ms == ms[..|ms| - 1] + [ms[|ms| - 1]];
    }
  }

  /** No message is lost but those of the middle: the mandatory ones and the middle are all of them. */
  lemma MandatoryAndMiddle(ms: seq<Message>)
    ensures multiset(Mandatory(ms)) + multiset(Middle(ms)) == multiset(ms)
  {
    ClassesPartition(ms);
    var others := OfClass(ms, OtherClass);
    var cut := |others| - Least(4, |others|);
    assert others == others[..cut] + others[cut..];
  }

  lemma {:induction false} NoneChosen(middle: seq<Message>, chosen: set<nat>, i: nat)
    requires i <= |middle| && chosen == {}
    ensures PickFrom(middle, chosen, i) == []
    decreases |middle| - i
  {
    if i < |middle| {
      NoneChosen(middle, chosen, i + 1);
    }
  }

  /** When nothing is left over, none of the older messages is kept. */
  lemma NothingLeft(ms: seq<Message>, kept: seq<Message>, chosen: set<nat>, left: int, estimate: string -> nat)
    requires Fills(ms, kept, chosen, left, estimate) && left <= 0
    ensures kept == []
  {
    forall x: nat | x < |Middle(ms)| ensures x !in chosen {
      assert Decided(Middle(ms), chosen, left, estimate, x);
    }
    assert chosen == {};
    NoneChosen(Middle(ms), chosen, 0);
  }

  /** The result exceeds the budget only when the mandatory messages alone do, and then nothing is added. */
  lemma ResultWithinBudget(ms: seq<Message>, kept: seq<Message>, chosen: set<nat>, budget: int,
                           estimate: string -> nat, result: seq<Message>)
    requires Fills(ms, kept, chosen, budget - Tokens(Mandatory(ms), estimate), estimate)
    requires result == PrunedTo(ms, kept)
    ensures Tokens(result, estimate) > budget ==> Tokens(Mandatory(ms), estimate) > budget && kept == []
  {
    var others := OfClass(ms, OtherClass);
    var head, tail := OfClass(ms, SystemClass) + OfClass(ms, PinnedClass), others[|others| - Least(4, |others|)..];
    TokensAppend(head, tail, estimate);
    TokensAppend(head, kept, estimate);
    TokensAppend(head + kept, tail, estimate);
    var left := budget - Tokens(Mandatory(ms), estimate);
    if left < 0 { NothingLeft(ms, kept, chosen, left, estimate); }
  }
}
