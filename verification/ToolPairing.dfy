/** What the Messages API demands of tool calls, and when the converted transcript meets it. */
module ToolPairing {
  import opened Conversation
  import opened AnthropicProvider

  function UseIds(content: seq<Block>): seq<string>
  {
    if content == [] then []
    else
      var rest, b := UseIds(content[..|content| - 1]), content[|content| - 1];
      if b.ToolUse? then rest + [b.id] else rest
  }

  ghost predicate NoResults(content: seq<Block>)
  {
    forall j :: 0 <= j < |content| ==> !content[j].ToolResult?
  }

  /** The results for `ids` come first, in order, and there are no others. */
  ghost predicate Leads(content: seq<Block>, ids: seq<string>)
  {
    && |ids| <= |content|
    && (forall j :: 0 <= j < |ids| ==> content[j].ToolResult? && content[j].id == ids[j])
    && forall j :: |ids| <= j < |content| ==> !content[j].ToolResult?
  }

  /** The calls a message at `i` follows. */
  function Asked(out: seq<Param>, i: nat): seq<string>
    requires i < |out|
  {
    if i == 0 then [] else UseIds(out[i - 1].content)
  }

  ghost predicate Replies(asked: seq<string>, p: Param)
  {
    if p.role.UserTurn? then UseIds(p.content) == [] && Leads(p.content, asked) else NoResults(p.content)
  }

  ghost predicate RepliesAt(out: seq<Param>, i: nat)
    requires i < |out|
  {
    Replies(Asked(out, i), out[i])
  }

  /** User and assistant in turn, the user first. */
  ghost predicate InTurn(out: seq<Param>)
  {
    forall i :: 0 <= i < |out| ==> out[i].role.UserTurn? == (i % 2 == 0)
  }

  /** Every tool_use is answered at the head of the very next message, in order, and nothing else is. */
  ghost predicate Paired(out: seq<Param>)
  {
    && InTurn(out)
    && (forall i :: 0 <= i < |out| ==> RepliesAt(out, i))
    && (out != [] && out[|out| - 1].role.AssistantTurn? ==> UseIds(out[|out| - 1].content) == [])
  }

  // ---- the invariant of the conversion ----

  /** The last message so far, following calls `asked`, with results `owed` still to come. */
  ghost predicate Pending(asked: seq<string>, p: Param, owed: seq<string>)
  {
    if p.role.AssistantTurn? then NoResults(p.content) && UseIds(p.content) == owed
    else
      && UseIds(p.content) == []
      && |owed| <= |asked|
      && owed == asked[|asked| - |owed|..]
      && Leads(p.content, asked[..|asked| - |owed|])
      && (owed != [] ==> |p.content| == |asked| - |owed|)
  }

  ghost predicate PairedSoFar(out: seq<Param>, owed: seq<string>)
  {
    && InTurn(out)
    && (forall i :: 0 <= i < |out| - 1 ==> RepliesAt(out, i))
    && (out == [] ==> owed == [])
    && (out != [] ==> Pending(Asked(out, |out| - 1), out[|out| - 1], owed))
  }

  lemma {:induction false} UseIdsAppend(a: seq<Block>, b: seq<Block>)
    ensures UseIds(a + b) == UseIds(a) + UseIds(b)
  {
    if b == [] {
      assert a + b == a;
    } else {
      assert (a + b)[..|a + b| - 1] == a + b[..|b| - 1];
      UseIdsAppend(a, b[..|b| - 1]);
    }
  }

  lemma {:induction false} UseIdsOfCalls(calls: seq<ToolCall>)
    ensures UseIds(Uses(calls)) == Ids(calls)
  {
    if calls == [] {
      assert Uses(calls) == [];
    } else {
      var init := calls[..|calls| - 1];
      UseIdsOfCalls(init);
      assert Uses(calls)[..|calls| - 1] == Uses(init);
      assert Ids(calls) == Ids(init) + [calls[|calls| - 1].id];
    }
  }

  /** What an assistant message asks for. */
  lemma AssistantBlocks(m: Message)
    requires m.role.Assistant?
    ensures NoResults(Blocks(m)) && UseIds(Blocks(m)) == Ids(m.calls)
  {
    UseIdsOfCalls(m.calls);
    if m.calls != [] && m.content != "" {
      UseIdsAppend([Text(m.content)], Uses(m.calls));
      assert UseIds([Text(m.content)]) == [];
    }
  }

  lemma SettledReplies(asked: seq<string>, p: Param)
    requires Pending(asked, p, [])
    ensures Replies(asked, p)
  {
    assert asked[..|asked|] == asked;
  }

  /** A user message may only open, or follow an assistant message that owes what it asked. */
  lemma PushNew(out: seq<Param>, owed: seq<string>, m: Param, owed': seq<string>)
    requires PairedSoFar(out, owed) && out != [] && out[|out| - 1].role != m.role
    requires m.role.AssistantTurn? ==> owed == [] && NoResults(m.content) && UseIds(m.content) == owed'
    requires m.role.UserTurn? ==> Pending(owed, m, owed')
    ensures PairedSoFar(Push(out, m), owed')
  {
    var r, last := Push(out, m), |out| - 1;
    assert Asked(r, last + 1) == UseIds(out[last].content);
    if m.role.AssistantTurn? {
      SettledReplies(Asked(out, last), out[last]);
    }
    forall i | 0 <= i < |r| - 1 ensures RepliesAt(r, i) {
      assert Asked(r, i) == Asked(out, i);
      if i < last { assert RepliesAt(out, i); }
    }
  }

  lemma PushOnto(out: seq<Param>, owed: seq<string>, m: Param, owed': seq<string>)
    requires PairedSoFar(out, owed) && out != [] && out[|out| - 1].role == m.role
    requires Pending(Asked(out, |out| - 1), Param(m.role, out[|out| - 1].content + m.content), owed')
    ensures PairedSoFar(Push(out, m), owed')
  {
    var r, last := Push(out, m), |out| - 1;
    assert Asked(r, last) == Asked(out, last);
    forall i | 0 <= i < |r| - 1 ensures RepliesAt(r, i) {
      assert Asked(r, i) == Asked(out, i) && RepliesAt(out, i);
    }
  }

  lemma PushResult(out: seq<Param>, owed: seq<string>, text: string)
    requires PairedSoFar(out, owed) && owed != []
    ensures PairedSoFar(Push(out, Param(UserTurn, [ToolResult(owed[0], text)])), owed[1..])
  {
    var m := Param(UserTurn, [ToolResult(owed[0], text)]);
    var asked, last := Asked(out, |out| - 1), out[|out| - 1];
    assert UseIds(m.content) == [];
    if last.role.AssistantTurn? {
      PushNew(out, owed, m, owed[1..]);
    } else {
      UseIdsAppend(last.content, m.content);
      var k := |asked| - |owed|;
      assert asked[k..][0] == asked[k] && asked[k..][1..] == asked[k + 1..];
      PushOnto(out, owed, m, owed[1..]);
    }
  }

  lemma PushText(out: seq<Param>, text: string)
    requires PairedSoFar(out, [])
    ensures PairedSoFar(Push(out, Param(UserTurn, [Text(text)])), [])
  {
    var m := Param(UserTurn, [Text(text)]);
    assert UseIds(m.content) == [];
    if out != [] {
      var last := out[|out| - 1];
      if last.role.AssistantTurn? {
        PushNew(out, [], m, []);
      } else {
        UseIdsAppend(last.content, m.content);
        PushOnto(out, [], m, []);
      }
    }
  }

  lemma PushCalls(out: seq<Param>, content: seq<Block>, ids: seq<string>)
    requires PairedSoFar(out, []) && out != [] && NoResults(content) && UseIds(content) == ids
    ensures PairedSoFar(Push(out, Param(AssistantTurn, content)), ids)
  {
    var m, last := Param(AssistantTurn, content), out[|out| - 1];
    if last.role.UserTurn? {
      PushNew(out, [], m, ids);
    } else {
      UseIdsAppend(last.content, content);
      assert [] + ids == ids;
      PushOnto(out, [], m, ids);
    }
  }

  predicate AllNamed(ids: seq<string>)
  {
    forall i :: 0 <= i < |ids| ==> ids[i] != ""
  }

  predicate CallsNamed(m: Message)
  {
    m.role.Assistant? ==> AllNamed(Ids(m.calls))
  }

  /** No assistant message makes a call whose id is empty. */
  predicate NamedCalls(ms: seq<Message>)
  {
    forall m <- ms :: CallsNamed(m)
  }

  predicate NamedResults(ms: seq<Message>)
  {
    forall m <- ms :: m.role.Tool? ==> m.toolCallId != ""
  }

  lemma OpenedSnoc(flat: seq<Param>, p: Param)
    ensures flat != [] ==> Opened(flat + [p]) == Opened(flat) + [p]
    ensures flat == [] ==> Opened(flat + [p]) == if p.role.AssistantTurn? then [CONTINUE, p] else [p]
  {
  }

  lemma CoalesceSnoc(input: seq<Param>, m: Param)
    ensures Coalesce(input + [m]) == Push(Coalesce(input), m)
  {
    assert (input + [m])[..|input|] == input;
  }

  /** Converting one more message pushes its blocks; an opening assistant gets "(continue)" first. */
  lemma ConvertedNext(ms: seq<Message>)
    requires ms != []
    ensures var m, before := ms[|ms| - 1], Converted(ms[..|ms| - 1]);
      Converted(ms) ==
        if m.role.System? then before
        else if Flat(ms[..|ms| - 1]) == [] && m.role.Assistant? then
          Push([CONTINUE], Param(SpeakerOf(m.role), Blocks(m)))
        else Push(before, Param(SpeakerOf(m.role), Blocks(m)))
    ensures Flat(ms[..|ms| - 1]) == [] <==> Converted(ms[..|ms| - 1]) == []
  {
    var m, flat := ms[|ms| - 1], Flat(ms[..|ms| - 1]);
    var p := Param(SpeakerOf(m.role), Blocks(m));
    OpenedSnoc(flat, p);
    CoalesceSnoc(Opened(flat), p);
    CoalesceSnoc([CONTINUE], p);
    CoalesceSnoc([], CONTINUE);
    CoalesceSnoc([], p);
    assert [] + [CONTINUE] == [CONTINUE] && [] + [p] == [p] && [CONTINUE, p] == [CONTINUE] + [p];
  }

  lemma ContinuePaired()
    ensures PairedSoFar([CONTINUE], [])
  {
    PushText([], "(continue)");
  }

  lemma {:induction false} NamedConvertedPairs(ms: seq<Message>)
    requires Debts(ms).Owing? && NamedResults(ms)
    ensures PairedSoFar(Converted(ms), Debts(ms).ids)
  {
    if ms == [] {
      assert Converted(ms) == [];
    } else {
      NamedConvertedPairs(ms[..|ms| - 1]);
      ConvertedNext(ms);
      ContinuePaired();
      var m, owed, before := ms[|ms| - 1], Debts(ms[..|ms| - 1]).ids, Converted(ms[..|ms| - 1]);
      match m.role
      case System =>
      case User => PushText(before, m.content);
      case Tool => PushResult(before, owed, m.content);
      case Assistant =>
        AssistantBlocks(m);
        PushCalls(if before == [] then [CONTINUE] else before, Blocks(m), Ids(m.calls));
    }
  }

  lemma PairedEnd(out: seq<Param>)
    requires PairedSoFar(out, [])
    ensures Paired(out)
  {
    if out != [] {
      SettledReplies(Asked(out, |out| - 1), out[|out| - 1]);
      assert RepliesAt(out, |out| - 1);
    }
  }

  // ---- the converse: counting ----

  function ResultCount(content: seq<Block>): nat
  {
    if content == [] then 0
    else ResultCount(content[..|content| - 1]) + if content[|content| - 1].ToolResult? then 1 else 0
  }

  lemma {:induction false} ResultCountAppend(a: seq<Block>, b: seq<Block>)
    ensures ResultCount(a + b) == ResultCount(a) + ResultCount(b)
  {
    if b == [] {
      assert a + b == a;
    } else {
      assert (a + b)[..|a + b| - 1] == a + b[..|b| - 1];
      ResultCountAppend(a, b[..|b| - 1]);
    }
  }

  lemma {:induction false} NoResultCount(content: seq<Block>)
    requires NoResults(content)
    ensures ResultCount(content) == 0
  {
    if content != [] {
      NoResultCount(content[..|content| - 1]);
    }
  }

  lemma {:induction false} LeadsCount(content: seq<Block>, ids: seq<string>)
    requires Leads(content, ids)
    ensures ResultCount(content) == |ids|
    decreases |content|
  {
    if content != [] {
      if |ids| == |content| {
        LeadsCount(content[..|content| - 1], ids[..|ids| - 1]);
      } else {
        LeadsCount(content[..|content| - 1], ids);
      }
    }
  }

  /** Calls made minus results given, over a whole list. */
  function Balance(out: seq<Param>): int
  {
    if out == [] then 0
    else Balance(out[..|out| - 1]) + |UseIds(out[|out| - 1].content)| - ResultCount(out[|out| - 1].content)
  }

  lemma PushBalance(out: seq<Param>, m: Param)
    ensures Balance(Push(out, m)) == Balance(out) + |UseIds(m.content)| - ResultCount(m.content)
  {
    var r := Push(out, m);
    if out != [] && out[|out| - 1].role == m.role {
      UseIdsAppend(out[|out| - 1].content, m.content);
      ResultCountAppend(out[|out| - 1].content, m.content);
      assert r[..|r| - 1] == out[..|out| - 1];
    } else {
      assert r[..|r| - 1] == out;
    }
  }

  lemma {:induction false} RepliedPrefixBalance(out: seq<Param>, n: nat)
    requires n <= |out| && InTurn(out) && forall i :: 0 <= i < n ==> RepliesAt(out, i)
    ensures Balance(out[..n]) == if n > 0 && out[n - 1].role.AssistantTurn? then |UseIds(out[n - 1].content)| else 0
  {
    if n > 0 {
      RepliedPrefixBalance(out, n - 1);
      assert out[..n][..n - 1] == out[..n - 1];
      assert RepliesAt(out, n - 1);
      if out[n - 1].role.AssistantTurn? {
        NoResultCount(out[n - 1].content);
      } else {
        LeadsCount(out[n - 1].content, Asked(out, n - 1));
      }
    }
  }

  /** What the last message so far adds to the balance. */
  lemma PendingCount(asked: seq<string>, p: Param, owed: seq<string>)
    requires Pending(asked, p, owed)
    ensures |UseIds(p.content)| - ResultCount(p.content) == |owed| - if p.role.AssistantTurn? then 0 else |asked|
  {
    if p.role.AssistantTurn? {
      NoResultCount(p.content);
    } else {
      LeadsCount(p.content, asked[..|asked| - |owed|]);
    }
  }

  /** While results are owed, as many calls as that are open. */
  lemma PendingBalance(out: seq<Param>, owed: seq<string>)
    requires PairedSoFar(out, owed)
    ensures Balance(out) == |owed|
  {
    if out != [] {
      RepliedPrefixBalance(out, |out| - 1);
      PendingCount(Asked(out, |out| - 1), out[|out| - 1], owed);
    }
  }

  /** Tool messages without a call id are converted to plain text. */
  function Unnamed(ms: seq<Message>): nat
  {
    if ms == [] then 0
    else Unnamed(ms[..|ms| - 1]) + if ms[|ms| - 1].role.Tool? && ms[|ms| - 1].toolCallId == "" then 1 else 0
  }

  lemma {:induction false} NamedIffNone(ms: seq<Message>)
    ensures NamedResults(ms) <==> Unnamed(ms) == 0
  {
    if ms != [] {
      NamedIffNone(ms[..|ms| - 1]);
      assert forall m :: m in ms <==> m in ms[..|ms| - 1] || m == ms[|ms| - 1];
    }
  }

  lemma MessageBalance(m: Message, owed: seq<string>)
    requires Settle(owed, m).Owing? && !m.role.System?
    ensures |UseIds(Blocks(m))| - ResultCount(Blocks(m)) ==
      |Settle(owed, m).ids| - |owed| + if m.role.Tool? && m.toolCallId == "" then 1 else 0
  {
    if m.role.Assistant? {
      AssistantBlocks(m);
      NoResultCount(Blocks(m));
    } else {
      assert Blocks(m)[..0] == [];
    }
  }

  lemma ContinueBalance(m: Param)
    ensures Balance(Push([CONTINUE], m)) == |UseIds(m.content)| - ResultCount(m.content)
  {
    PushBalance([], CONTINUE);
    PushBalance([CONTINUE], m);
  }

  lemma ConvertedNextBalance(ms: seq<Message>, m: Message)
    requires ms != [] && m == ms[|ms| - 1] && !m.role.System?
    ensures Balance(Converted(ms)) ==
      Balance(Converted(ms[..|ms| - 1])) + |UseIds(Blocks(m))| - ResultCount(Blocks(m))
  {
    ConvertedNext(ms);
    var p := Param(SpeakerOf(m.role), Blocks(m));
    PushBalance(Converted(ms[..|ms| - 1]), p);
    ContinueBalance(p);
  }

  lemma {:induction false} ConvertedBalance(ms: seq<Message>)
    requires Debts(ms).Owing?
    ensures Balance(Converted(ms)) == |Debts(ms).ids| + Unnamed(ms)
  {
    if ms == [] {
      assert Converted(ms) == [];
    } else {
      ConvertedBalance(ms[..|ms| - 1]);
      var m := ms[|ms| - 1];
      if m.role.System? {
        ConvertedNext(ms);
      } else {
        ConvertedNextBalance(ms, m);
        MessageBalance(m, Debts(ms[..|ms| - 1]).ids);
      }
    }
  }

  lemma {:induction false} CallsNamedWithResults(ms: seq<Message>)
    requires Debts(ms).Owing?
    ensures NamedCalls(ms) <==> NamedResults(ms) && AllNamed(Debts(ms).ids)
  {
    if ms != [] {
      var init, m := ms[..|ms| - 1], ms[|ms| - 1];
      CallsNamedWithResults(init);
      assert forall x :: x in ms <==> x in init || x == m;
      CallsNamedStep(Debts(init).ids, m);
    }
  }

  lemma CallsNamedStep(owed: seq<string>, m: Message)
    requires Settle(owed, m).Owing?
    ensures AllNamed(owed) && CallsNamed(m) <==> (m.role.Tool? ==> m.toolCallId != "") && AllNamed(Settle(owed, m).ids)
  {
    if m.role.Tool? {
      assert owed == [owed[0]] + owed[1..];
    }
  }

  /** Message by message, the converted list is paired up to the results still owed exactly as long as no
      result comes without a call id. */
  lemma ConvertedPairs(ms: seq<Message>)
    requires Debts(ms).Owing?
    ensures PairedSoFar(Converted(ms), Debts(ms).ids) <==> NamedResults(ms)
  {
    NamedIffNone(ms);
    if NamedResults(ms) {
      NamedConvertedPairs(ms);
    }
    if PairedSoFar(Converted(ms), Debts(ms).ids) {
      PendingBalance(Converted(ms), Debts(ms).ids);
      ConvertedBalance(ms);
    }
  }

  lemma PairedAll(out: seq<Param>)
    requires Paired(out)
    ensures PairedSoFar(out, [])
  {
    if out != [] {
      var asked := Asked(out, |out| - 1);
      assert RepliesAt(out, |out| - 1) && asked[..|asked|] == asked;
    }
  }

  /** A well-formed transcript converts to a list the API accepts exactly when no call id is empty. */
  lemma PairedIffNamed(ms: seq<Message>)
    requires WellFormed(ms)
    ensures Paired(Converted(ms)) <==> NamedCalls(ms)
  {
    CallsNamedWithResults(ms);
    ConvertedPairs(ms);
    if NamedCalls(ms) {
      PairedEnd(Converted(ms));
    }
    if Paired(Converted(ms)) {
      PairedAll(Converted(ms));
    }
  }

  /** A question, a call without an id, and its result. */
  function UnnamedCall(): seq<Message>
  {
    [Message(User, "go", [], "", false), Message(Assistant, "", [ToolCall("", "ls", "")], "", false),
      Message(Tool, "ok", [], "", false)]
  }

  /** Well-formed, but its result is sent as text and the call stays unanswered. */
  lemma UnnamedCallUnpaired()
    ensures WellFormed(UnnamedCall()) && !Paired(Converted(UnnamedCall()))
  {
    var ms := UnnamedCall();
    DebtsSnoc([], ms[0]);
    DebtsSnoc([ms[0]], ms[1]);
    DebtsSnoc([ms[0], ms[1]], ms[2]);
    assert [] + [ms[0]] == [ms[0]] && [ms[0]] + [ms[1]] == [ms[0], ms[1]] && [ms[0], ms[1]] + [ms[2]] == ms;
    assert Ids(ms[1].calls) == [""] && [""][1..] == [];
    assert ms[1] in ms && !CallsNamed(ms[1]);
    PairedIffNamed(ms);
  }
}
