/** What becomes of a transcript when its history is pruned: when it stays well-formed, and what it costs. */
module PrunedHistory {
  import opened Arithmetic
  import opened Conversation
  import opened HistoryPruner

  // ---- when the pruned history is still well-formed ----

  lemma {:induction false} DebtsAppend(a: seq<Message>, b: seq<Message>, s: seq<Message>)
    requires Debts(a) == Debts(b)
    ensures Debts(a + s) == Debts(b + s)
  {
    if s == [] {
      assert a + s == a && b + s == b;
    } else {
      AppendInit(a, s);
      AppendInit(b, s);
      DebtsAppend(a, b, s[..|s| - 1]);
    }
  }

  lemma AppendInit(a: seq<Message>, s: seq<Message>)
    requires s != []
    ensures (a + s)[..|a + s| - 1] == a + s[..|s| - 1] && (a + s)[|a + s| - 1] == s[|s| - 1]
  {
  }

  /** A message leads to a debt from one debt only. */
  lemma SettleInjective(x: seq<string>, y: seq<string>, m: Message)
    requires Settle(x, m).Owing? && Settle(x, m) == Settle(y, m)
    ensures x == y
  {
    if m.role.Tool? {
      assert x == [x[0]] + x[1..] && y == [y[0]] + y[1..];
    }
  }

  /** What follows tells what was owed before it. */
  lemma {:induction false} SameDebtBefore(a: seq<Message>, b: seq<Message>, s: seq<Message>)
    requires Debts(a + s).Owing? && Debts(a + s) == Debts(b + s)
    ensures Debts(a) == Debts(b)
  {
    if s == [] {
      assert a + s == a && b + s == b;
    } else {
      AppendInit(a, s);
      AppendInit(b, s);
      var init := s[..|s| - 1];
      SettleInjective(Debts(a + init).ids, Debts(b + init).ids, s[|s| - 1]);
      SameDebtBefore(a, b, init);
    }
  }

  /** A pruned transcript is well-formed exactly when the messages put in front of the suffix owe what the
      messages before the cut owed. */
  lemma PrunedWellFormedIff(ms: seq<Message>, keep: nat)
    requires 4 <= keep < |ms| && WellFormed(ms)
    ensures WellFormed(Assembled(ms, keep)) <==> Debts(Head(ms, keep)) == Debts(ms[..|ms| - keep])
  {
    var before, s := ms[..|ms| - keep], ms[|ms| - keep..];
    assert before + s == ms;
    if Debts(Head(ms, keep)) == Debts(before) {
      DebtsAppend(Head(ms, keep), before, s);
    }
    if WellFormed(Assembled(ms, keep)) {
      SameDebtBefore(Head(ms, keep), before, s);
    }
  }

  predicate Plain(m: Message)
  {
    m.role.System? || (m.role.User? && m.calls == [])
  }

  lemma {:induction false} PlainSettles(ms: seq<Message>)
    requires forall m <- ms :: Plain(m)
    ensures Debts(ms) == Owing([])
  {
    if ms != [] {
      assert Plain(ms[|ms| - 1]);
      PlainSettles(ms[..|ms| - 1]);
    }
  }

  /** When neither the first message nor any pinned one calls a tool or answers a call: exactly when the
      cut does not fall between a call and its results. */
  lemma PlainPrunedIff(ms: seq<Message>, keep: nat)
    requires 4 <= keep < |ms| && WellFormed(ms)
    requires Plain(ms[0]) && forall m <- ms :: m.pinned ==> Plain(m)
    ensures WellFormed(Assembled(ms, keep)) <==> Debts(ms[..|ms| - keep]) == Owing([])
  {
    forall m | m in Head(ms, keep) ensures Plain(m) {
      if m in PinnedOf(ms[1..]) { assert m in ms; }
    }
    PlainSettles(Head(ms, keep));
    PrunedWellFormedIff(ms, keep);
  }

  // ---- what the pruned history costs ----

  lemma {:induction false} TokensSplit(ms: seq<Message>, cost: string -> nat)
    ensures Tokens(ms, cost) == UnpinnedTokens(ms, cost) + PinnedTokens(ms, cost)
  {
    if ms != [] {
      TokensSplit(ms[1..], cost);
      PinnedTokensHead(ms, cost);
    }
  }

  lemma {:induction false} PinnedTokensHead(ms: seq<Message>, cost: string -> nat)
    requires ms != []
    ensures PinnedTokens(ms, cost) == (if ms[0].pinned then cost(ms[0].content) else 0) + PinnedTokens(ms[1..], cost)
  {
    if |ms| > 1 {
      PinnedTokensHead(ms[..|ms| - 1], cost);
      assert ms[..|ms| - 1][1..] == ms[1..][..|ms[1..]| - 1];
    }
  }

  lemma {:induction false} PinnedOfCost(ms: seq<Message>, cost: string -> nat)
    ensures Tokens(PinnedOf(ms), cost) == PinnedTokens(ms, cost)
  {
    if ms != [] {
      PinnedOfCost(ms[..|ms| - 1], cost);
      TokensAppend(PinnedOf(ms[..|ms| - 1]), [ms[|ms| - 1]], cost);
    }
  }

  /** The message that says what was removed. */
  function NoticeOf(ms: seq<Message>, keep: nat): Message
    requires 1 <= keep < |ms|
  {
    var middle := ms[1..|ms| - keep];
    Notice(Unpinned(middle), UnpinnedTools(middle))
  }

  /** The whole cost: first message and notice, the pinned messages, and the suffix, whose pinned messages
      are paid for twice. It exceeds `maxTokens` exactly when this sum does. */
  lemma TotalTokens(ms: seq<Message>, keep: nat, cost: string -> nat)
    requires 4 <= keep < |ms|
    ensures var suffix := ms[|ms| - keep..];
      Tokens(Assembled(ms, keep), cost) ==
        cost(ms[0].content) + cost(NoticeOf(ms, keep).content) + PinnedTokens(ms[1..], cost)
        + PinnedTokens(suffix, cost) + UnpinnedTokens(suffix, cost)
  {
    var suffix := ms[|ms| - keep..];
    var first := [ms[0], NoticeOf(ms, keep)];
    TokensAppend(first, PinnedOf(ms[1..]), cost);
    TokensAppend(Head(ms, keep), suffix, cost);
    PinnedOfCost(ms[1..], cost);
    TokensSplit(suffix, cost);
    assert first[1..] == [NoticeOf(ms, keep)];
  }

  /** 60% of the budget, or the pinned messages when they exceed that. */
  function Share(ms: seq<Message>, maxTokens: int, cost: string -> nat): int
    requires ms != []
  {
    var sixty, pinned := Quotient(maxTokens * 60, 100), PinnedTokens(ms[1..], cost);
    if sixty < pinned then pinned else sixty
  }

  lemma SuffixShare(ms: seq<Message>, maxTokens: int, cost: string -> nat)
    requires |ms| > 5 && KeepOf(ms, maxTokens, cost) != 4
    ensures var keep := KeepOf(ms, maxTokens, cost);
      PinnedTokens(ms[1..], cost) + UnpinnedTokens(ms[|ms| - keep..], cost) <= Share(ms, maxTokens, cost)
  {
    var budget := KeepBudget(ms, maxTokens, cost);
    SuffixWithinBudget(ms, budget, cost, StopBelow(ms, budget, cost, |ms|), KeepOf(ms, maxTokens, cost));
  }

  /** Unless the minimum of 4 applied, the cost is at most that share, plus the first message, the notice and
      the pinned messages of the suffix again. */
  lemma TotalTokensBound(ms: seq<Message>, maxTokens: int, cost: string -> nat)
    requires |ms| > 5 && KeepOf(ms, maxTokens, cost) != 4
    ensures var keep := KeepOf(ms, maxTokens, cost);
      Tokens(Pruned(ms, maxTokens, cost), cost) <= cost(ms[0].content) + cost(NoticeOf(ms, keep).content)
        + Share(ms, maxTokens, cost) + PinnedTokens(ms[|ms| - keep..], cost)
  {
    SuffixShare(ms, maxTokens, cost);
    TotalTokens(ms, KeepOf(ms, maxTokens, cost), cost);
  }

  // ---- examples ----

  lemma NextMessage(ms: seq<Message>, n: nat)
    requires n < |ms| && Debts(ms[..n]).Owing?
    ensures Debts(ms[..n + 1]) == Settle(Debts(ms[..n]).ids, ms[n])
  {
    DebtsSnoc(ms[..n], ms[n]);
    assert ms[..n] + [ms[n]] == ms[..n + 1];
  }

  function Ask(q: string): Message { Message(User, q, [], "", false) }

  function Call(): Message { Message(Assistant, "", [ToolCall("1", "ls", "")], "", false) }

  function Answer(pinned: bool): Message { Message(Tool, "ok", [], "1", pinned) }

  /** A question, a call, its result, and three or five more questions. */
  function Orphaning(q: string): seq<Message> { [Ask(q), Call(), Answer(false), Ask(q), Ask(q), Ask(q)] }

  function PinnedAnswer(): seq<Message>
  {
    [Ask("go"), Call(), Answer(true), Ask("go"), Ask("go"), Ask("go"), Ask("go"), Ask("go")]
  }

  lemma {:induction false} QuestionsSettle(ms: seq<Message>, n: nat, q: string)
    requires 3 <= n <= |ms| && ms[..3] == [Ask(q), Call(), ms[2]]
    requires ms[2].role.Tool? && ms[2].calls == [] && ms[2].toolCallId == "1"
    requires forall i :: 3 <= i < |ms| ==> ms[i] == Ask(q)
    ensures Debts(ms[..n]) == Owing([]) && Debts(ms[..2]) == Owing(["1"])
  {
    if n == 3 {
      assert ms[0] == ms[..3][0] && ms[1] == ms[..3][1];
      assert ms[..0] == [];
      NextMessage(ms, 0);
      NextMessage(ms, 1);
      NextMessage(ms, 2);
      assert ["1"][1..] == [];
    } else {
      QuestionsSettle(ms, n - 1, q);
      NextMessage(ms, n - 1);
    }
  }

  /** With any budget and any question that takes more than 60% of it, the last 4 messages stay, they start
      with the result of a removed call, and together with the rest they cost more than the budget. */
  lemma PruningCanOrphan(q: string, maxTokens: int, cost: string -> nat)
    requires maxTokens > 0 && cost(q) > Quotient(maxTokens * 60, 100)
    ensures var ms := Orphaning(q);
      WellFormed(ms) && Pruned(ms, maxTokens, cost) == Assembled(ms, 4) && !WellFormed(Pruned(ms, maxTokens, cost))
  {
    var ms := Orphaning(q);
    QuestionsSettle(ms, 6, q);
    assert ms[..6] == ms && ms[5..] == [Ask(q)];
    FitsOnce(ms, KeepBudget(ms, maxTokens, cost), cost, 6, StopBelow(ms, KeepBudget(ms, maxTokens, cost), cost, 6));
    PlainPrunedIff(ms, 4);
  }

  lemma PruningCanExceed(q: string, maxTokens: int, cost: string -> nat)
    requires maxTokens > 0 && cost(q) > Quotient(maxTokens * 60, 100)
    ensures Tokens(Pruned(Orphaning(q), maxTokens, cost), cost) > maxTokens
  {
    var ms := Orphaning(q);
    PruningCanOrphan(q, maxTokens, cost);
    TotalTokens(ms, 4, cost);
    assert ms[2..] == [Answer(false), Ask(q), Ask(q), Ask(q)];
    assert ms[2..][1..] == [Ask(q), Ask(q), Ask(q)] && ms[2..][1..][1..] == [Ask(q), Ask(q)];
    assert ms[2..][1..][1..][1..] == [Ask(q)];
  }

  lemma PinnedHead()
    ensures Head(PinnedAnswer(), 4) == [Ask("go"), NoticeOf(PinnedAnswer(), 4)] + [Answer(true)]
  {
    var questions := [Ask("go"), Ask("go"), Ask("go"), Ask("go"), Ask("go")];
    OnePinned([Call()], Answer(true), questions);
    assert PinnedAnswer()[1..] == [Call()] + [Answer(true)] + questions;
  }

  /** A result in front of which nothing is owed. */
  lemma UnaskedResult(notice: Message)
    requires notice.role.System?
    ensures Debts([Ask("go"), notice] + [Answer(true)]) == Broken
  {
    assert [Ask("go"), notice][..1] == [Ask("go")] && [Ask("go")][..0] == [];
    assert Debts([Ask("go")]) == Owing([]);
    assert [Ask("go")] + [notice] == [Ask("go"), notice];
    DebtsSnoc([Ask("go")], notice);
    DebtsSnoc([Ask("go"), notice], Answer(true));
  }

  /** A pinned result breaks the transcript although the cut is at a settled point: it is put in front
      without its call. */
  lemma PinnedResultBreaks()
    ensures WellFormed(PinnedAnswer()) && Debts(PinnedAnswer()[..4]) == Owing([])
    ensures !WellFormed(Assembled(PinnedAnswer(), 4))
  {
    var ms := PinnedAnswer();
    QuestionsSettle(ms, 4, "go");
    QuestionsSettle(ms, 8, "go");
    assert ms[..8] == ms;
    PinnedHead();
    UnaskedResult(NoticeOf(ms, 4));
    PrunedWellFormedIff(ms, 4);
  }

  lemma NonePinned(ms: seq<Message>)
    requires forall m <- ms :: !m.pinned
    ensures PinnedOf(ms) == []
  {
    assert forall i :: 0 <= i < |PinnedOf(ms)| ==> PinnedOf(ms)[i] in PinnedOf(ms);
  }

  lemma OnePinned(a: seq<Message>, m: Message, b: seq<Message>)
    requires m.pinned && (forall x <- a :: !x.pinned) && forall x <- b :: !x.pinned
    ensures PinnedOf(a + [m] + b) == [m]
  {
    NonePinned(a);
    NonePinned(b);
    assert PinnedOf([m]) == [m] by { assert [m][..0] == []; }
    PinnedOfAppend(a, [m]);
    PinnedOfAppend(a + [m], b);
  }
}
