/** Conversation messages, and the transcripts in which every tool call is answered. */
module Conversation {

  datatype Role = System | User | Assistant | Tool

  datatype ToolCall = ToolCall(id: string, name: string, args: string)

  datatype Message = Message(role: Role, content: string, calls: seq<ToolCall>, toolCallId: string, pinned: bool)

  function Ids(calls: seq<ToolCall>): (r: seq<string>)
    ensures |r| == |calls| && forall i :: 0 <= i < |r| ==> r[i] == calls[i].id
  {
    seq(|calls|, i requires 0 <= i < |calls| => calls[i].id)
  }

  /** The tool results a transcript still owes, in order; `Broken` when a message came out of turn. */
  datatype Debt = Broken | Owing(ids: seq<string>)

  function Settle(owed: seq<string>, m: Message): Debt
  {
    match m.role
    case System => Owing(owed)
    case User => if owed == [] && m.calls == [] then Owing([]) else Broken
    case Assistant => if owed == [] then Owing(Ids(m.calls)) else Broken
    case Tool => if owed != [] && owed[0] == m.toolCallId && m.calls == [] then Owing(owed[1..]) else Broken
  }

  function Debts(ms: seq<Message>): Debt
  {
    if ms == [] then Owing([])
    else
      match Debts(ms[..|ms| - 1])
      case Broken => Broken
      case Owing(owed) => Settle(owed, ms[|ms| - 1])
  }

  /** Every call answered by one result, in order, with only system messages between. */
  predicate WellFormed(ms: seq<Message>)
  {
    Debts(ms) == Owing([])
  }

  lemma DebtsSnoc(ms: seq<Message>, m: Message)
    requires Debts(ms).Owing?
    ensures Debts(ms + [m]) == Settle(Debts(ms).ids, m)
  {
    assert (ms + [m])[..|ms|] == ms;
  }

  predicate AllSystem(ms: seq<Message>)
  {
    forall m <- ms :: m.role.System?
  }

  /** The messages other than system messages. */
  function Dialogue(ms: seq<Message>): (d: seq<Message>)
    ensures forall m <- d :: !m.role.System?
  {
    if ms == [] then []
    else
      var rest := Dialogue(ms[..|ms| - 1]);
      if ms[|ms| - 1].role.System? then rest else rest + [ms[|ms| - 1]]
  }

  lemma {:induction false} DialogueDebts(ms: seq<Message>)
    requires Debts(ms).Owing?
    ensures Debts(Dialogue(ms)) == Debts(ms)
  {
    if ms != [] {
      DialogueDebts(ms[..|ms| - 1]);
      DebtsSnoc(Dialogue(ms[..|ms| - 1]), ms[|ms| - 1]);
    }
  }

  lemma {:induction false} PrefixNotBroken(ms: seq<Message>, n: nat)
    requires Debts(ms).Owing? && n <= |ms|
    ensures Debts(ms[..n]).Owing?
    decreases |ms|
  {
    if n < |ms| {
      PrefixNotBroken(ms[..|ms| - 1], n);
      assert ms[..|ms| - 1][..n] == ms[..n];
    } else {
      assert ms[..n] == ms;
    }
  }

  /** One more message of a transcript that is not broken. */
  lemma NextSettles(ms: seq<Message>, n: nat)
    requires Debts(ms).Owing? && n < |ms|
    ensures Debts(ms[..n]).Owing? && Debts(ms[..n + 1]).Owing?
    ensures Debts(ms[..n + 1]) == Settle(Debts(ms[..n]).ids, ms[n])
  {
    PrefixNotBroken(ms, n);
    PrefixNotBroken(ms, n + 1);
    DebtsSnoc(ms[..n], ms[n]);
    assert ms[..n] + [ms[n]] == ms[..n + 1];
  }

  /** The tool message answering call `j` of the assistant message at `i`. */
  predicate Answers(d: seq<Message>, i: nat, j: nat)
    requires i < |d| && j < |d[i].calls|
  {
    i + 1 + j < |d| && d[i + 1 + j].role.Tool? && d[i + 1 + j].toolCallId == d[i].calls[j].id
  }

  /** While results are owed, the next message of a dialogue is the one owed first. */
  lemma NextAnswers(d: seq<Message>, n: nat, ids: seq<string>, j: nat)
    requires WellFormed(d) && (forall m <- d :: !m.role.System?) && n <= |d| && j < |ids|
    requires Debts(d[..n]) == Owing(ids[j..])
    ensures n < |d| && d[n].role.Tool? && d[n].toolCallId == ids[j] && Debts(d[..n + 1]) == Owing(ids[j + 1..])
  {
    assert d[..|d|] == d;
    NextSettles(d, n);
    assert d[n] in d;
    assert ids[j..][1..] == ids[j + 1..];
  }

  lemma {:induction false} OwedAfter(d: seq<Message>, i: nat, ids: seq<string>, j: nat)
    requires WellFormed(d) && (forall m <- d :: !m.role.System?)
    requires i < |d| && d[i].role.Assistant? && ids == Ids(d[i].calls) && j <= |ids|
    ensures i + 1 + j <= |d| && Debts(d[..i + 1 + j]) == Owing(ids[j..])
    ensures forall t :: 0 <= t < j ==> Answers(d, i, t)
  {
    if j == 0 {
      NextSettles(d, i);
      assert ids[0..] == ids;
    } else {
      OwedAfter(d, i, ids, j - 1);
      NextAnswers(d, i + j, ids, j - 1);
    }
  }

  /** Exactly one tool message per call of the assistant message at `i`, same ids and order. */
  ghost predicate AnsweredAt(d: seq<Message>, i: nat)
    requires i < |d|
  {
    var after := i + 1 + |d[i].calls|;
    (forall j :: 0 <= j < |d[i].calls| ==> Answers(d, i, j)) && (after < |d| ==> !d[after].role.Tool?)
  }

  lemma DialogueAnswered(d: seq<Message>, i: nat, ids: seq<string>)
    requires WellFormed(d) && (forall m <- d :: !m.role.System?)
    requires i < |d| && d[i].role.Assistant? && ids == Ids(d[i].calls)
    ensures AnsweredAt(d, i)
  {
    OwedAfter(d, i, ids, |ids|);
    if i + 1 + |ids| < |d| {
      NextSettles(d, i + 1 + |ids|);
    }
  }

  /** In a well-formed transcript, leaving system messages aside, each assistant message is followed
      by the results of its calls and then by something other than a result. */
  lemma AnsweredInOrder(ms: seq<Message>)
    requires WellFormed(ms)
    ensures forall i :: 0 <= i < |Dialogue(ms)| && Dialogue(ms)[i].role.Assistant? ==> AnsweredAt(Dialogue(ms), i)
  {
    DialogueDebts(ms);
    var d := Dialogue(ms);
    forall i | 0 <= i < |d| && d[i].role.Assistant? ensures AnsweredAt(d, i) {
      DialogueAnswered(d, i, Ids(d[i].calls));
    }
  }

  // ---- token counts ----

  function Tokens(ms: seq<Message>, estimate: string -> nat): nat
  {
    if ms == [] then 0 else estimate(ms[0].content) + Tokens(ms[1..], estimate)
  }

  lemma {:induction false} TokensAppend(a: seq<Message>, b: seq<Message>, estimate: string -> nat)
    ensures Tokens(a + b, estimate) == Tokens(a, estimate) + Tokens(b, estimate)
  {
    if a == [] {
      assert a + b == b;
    } else {
      assert (a + b)[1..] == a[1..] + b;
      TokensAppend(a[1..], b, estimate);
    }
  }

  method CountTokens(ms: seq<Message>, estimate: string -> nat) returns (total: nat)
    ensures total == Tokens(ms, estimate)
  {
    total := 0;
    for i := 0 to |ms|
      invariant total == Tokens(ms[..i], estimate)
    {
      total := total + estimate(ms[i].content);
      TokensAppend(ms[..i], [ms[i]], estimate);
      assert ms[..i] + [ms[i]] == ms[..i + 1];
    }
    assert ms[..|ms|] == ms;
  }
}
