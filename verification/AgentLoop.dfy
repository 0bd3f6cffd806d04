/** The ReAct loop: the language model and the tools are oracles, the transcript is built step by step. */
module AgentLoop {
  import opened Conversation
  import ToolCallDedupe

  // ---- fix loops ----

  datatype Outcome = Outcome(tool: string, failed: bool)

  const FIX_LOOP_WARN_THRESHOLD := 3

  /** How many of the latest outcomes are failures of one tool in a row. */
  function Streak(os: seq<Outcome>): nat
  {
    var n := |os|;
    if n == 0 || !os[n - 1].failed then 0
    else if n > 1 && os[n - 2].failed && os[n - 2].tool == os[n - 1].tool then Streak(os[..n - 1]) + 1
    else 1
  }

  ghost predicate FailedInARow(os: seq<Outcome>, k: nat)
  {
    k <= |os| && forall i :: |os| - k <= i < |os| ==> os[i].failed && os[i].tool == os[|os| - 1].tool
  }

  lemma {:induction false} StreakIff(os: seq<Outcome>, k: nat)
    ensures Streak(os) >= k <==> FailedInARow(os, k)
  {
    if k > 1 && |os| > 1 {
      var init := os[..|os| - 1];
      StreakIff(init, k - 1);
      if FailedInARow(os, k) {
        assert os[|os| - 2].failed && os[|os| - 2].tool == os[|os| - 1].tool;
        assert forall i :: |init| - (k - 1) <= i < |init| ==> init[i] == os[i];
      }
      if Streak(os) >= k {
        assert FailedInARow(init, k - 1);
        assert forall i :: |os| - k <= i < |os| - 1 ==> os[i] == init[i];
      }
    }
  }

  class ConsecutiveFailureTracker {
    var lastFailedTool: string
    var failCount: nat
    ghost var outcomes: seq<Outcome>

    ghost predicate Valid()
      reads this
    {
      && failCount == Streak(outcomes)
      && lastFailedTool == if failCount > 0 then outcomes[|outcomes| - 1].tool else ""
    }

    constructor ()
      ensures Valid() && outcomes == []
    {
      lastFailedTool, failCount, outcomes := "", 0, [];
    }

    /** True from the third failure of one tool in a row on. */
    method Track(toolName: string, isError: bool) returns (stepBack: bool)
      requires Valid()
      modifies this
      ensures Valid() && outcomes == old(outcomes) + [Outcome(toolName, isError)]
      ensures stepBack <==> Streak(outcomes) >= FIX_LOOP_WARN_THRESHOLD
      ensures stepBack ==> lastFailedTool == toolName && failCount == Streak(outcomes)
    {
      outcomes := outcomes + [Outcome(toolName, isError)];
      assert outcomes[..|outcomes| - 1] == old(outcomes);
      if !isError {
        lastFailedTool := "";
        failCount := 0;
        return false;
      }
      if toolName == lastFailedTool {
        failCount := failCount + 1;
      } else {
        lastFailedTool := toolName;
        failCount := 1;
      }
      return failCount >= FIX_LOOP_WARN_THRESHOLD;
    }
  }

  // ---- the oracles ----

  datatype Reply = Failed(error: string) | Answer(content: string, calls: seq<ToolCall>)

  datatype ToolOutcome = ToolOutcome(content: string, failed: bool)

  /** Whatever the surroundings do, by step (from 0), by attempt, by call. */
  datatype World = World(
    cancelled: nat -> bool,
    chat: (nat, nat, seq<Message>) -> Reply,
    cancelledInRetry: (nat, nat) -> bool,
    execute: (nat, nat) -> ToolOutcome,
    needsReflection: nat -> bool,
    reflection: nat -> string,
    stepBack: (string, nat) -> string,
    exactTokens: string -> nat,
    estimate: string -> nat,
    codec: ToolCallDedupe.Codec)

  datatype Config = Config(maxSteps: int, maxContextTokens: int, enableReflection: bool, llmRetries: int)

  datatype RunResult = RunResult(content: string, messages: seq<Message>, done: bool,
                                  stepsUsed: int, hitStepLimit: bool)

  function SystemMessage(content: string): Message
  {
    Message(System, content, [], "", false)
  }

  function ToolMessage(content: string, id: string): Message
  {
    Message(Tool, content, [], id, false)
  }

  function AssistantMessage(content: string, calls: seq<ToolCall>): Message
  {
    Message(Assistant, content, calls, "", false)
  }

  // ---- one step's tool results ----

  /** The outcomes of the first `n` calls of a step, after those of earlier steps. */
  function Outcomes(w: World, step: nat, calls: seq<ToolCall>, before: seq<Outcome>, n: nat): seq<Outcome>
    requires n <= |calls|
  {
    if n == 0 then before
    else Outcomes(w, step, calls, before, n - 1) + [Outcome(calls[n - 1].name, w.execute(step, n - 1).failed)]
  }

  /** The result of call `i`, under the call's id. */
  function ResultOf(w: World, step: nat, calls: seq<ToolCall>, i: nat): (m: Message)
    requires i < |calls|
    ensures m.role.Tool? && m.calls == [] && m.toolCallId == calls[i].id
  {
    ToolMessage(w.execute(step, i).content, calls[i].id)
  }

  /** The step-back prompt after call `i`, when its outcome extends a fix loop. */
  function NoteAfter(w: World, step: nat, calls: seq<ToolCall>, before: seq<Outcome>, i: nat): (note: seq<Message>)
    requires i < |calls|
    ensures AllSystem(note)
  {
    var streak := Streak(Outcomes(w, step, calls, before, i + 1));
    if streak >= FIX_LOOP_WARN_THRESHOLD then [SystemMessage(w.stepBack(calls[i].name, streak))] else []
  }

  /** What each tool said, under the id of its call. */
  function ToolMessages(w: World, step: nat, calls: seq<ToolCall>): (r: seq<Message>)
    ensures |r| == |calls| && forall i :: 0 <= i < |r| ==> r[i] == ResultOf(w, step, calls, i)
  {
    seq(|calls|, i requires 0 <= i < |calls| => ResultOf(w, step, calls, i))
  }

  function Notes(w: World, step: nat, calls: seq<ToolCall>, before: seq<Outcome>): (r: seq<seq<Message>>)
    ensures |r| == |calls| && forall i :: 0 <= i < |r| ==> r[i] == NoteAfter(w, step, calls, before, i)
  {
    seq(|calls|, i requires 0 <= i < |calls| => NoteAfter(w, step, calls, before, i))
  }

  /** The first `n` results, each followed by its notes. */
  function Interleaved(results: seq<Message>, notes: seq<seq<Message>>, n: nat): seq<Message>
    requires n <= |results| == |notes|
  {
    if n == 0 then [] else Interleaved(results, notes, n - 1) + ([results[n - 1]] + notes[n - 1])
  }

  /** The result of every call, each with its step-back prompt if any. */
  function Results(w: World, step: nat, calls: seq<ToolCall>, before: seq<Outcome>): seq<Message>
  {
    Interleaved(ToolMessages(w, step, calls), Notes(w, step, calls, before), |calls|)
  }

  lemma Assoc<T>(a: seq<T>, b: seq<T>, c: seq<T>)
    ensures a + b + c == a + (b + c)
  {
  }

  /** One call: run the tool, append its result, track the outcome, append the step-back prompt if due. */
  method ExecuteTool(w: World, step: nat, calls: seq<ToolCall>, i: nat, sofar: seq<Message>,
                     failTracker: ConsecutiveFailureTracker, ghost before: seq<Outcome>)
    returns (messages: seq<Message>)
    requires i < |calls| && failTracker.Valid() && failTracker.outcomes == Outcomes(w, step, calls, before, i)
    modifies failTracker
    ensures failTracker.Valid() && failTracker.outcomes == Outcomes(w, step, calls, before, i + 1)
    ensures messages == sofar + ([ResultOf(w, step, calls, i)] + NoteAfter(w, step, calls, before, i))
  {
    var tc := calls[i];
    var result := w.execute(step, i);
    messages := sofar + [ToolMessage(result.content, tc.id)];
    var stuck := failTracker.Track(tc.name, result.failed);
    if stuck {
      messages := messages + [SystemMessage(w.stepBack(failTracker.lastFailedTool, failTracker.failCount))];
    }
  }

  lemma InterleavedNext(history: seq<Message>, results: seq<Message>, notes: seq<seq<Message>>, i: nat)
    requires i < |results| == |notes|
    ensures history + Interleaved(results, notes, i) + ([results[i]] + notes[i]) ==
      history + Interleaved(results, notes, i + 1)
  {
  }

  method ExecuteTools(w: World, step: nat, calls: seq<ToolCall>, history: seq<Message>,
                      failTracker: ConsecutiveFailureTracker)
    returns (messages: seq<Message>)
    requires failTracker.Valid()
    modifies failTracker
    ensures failTracker.Valid()
    ensures failTracker.outcomes == Outcomes(w, step, calls, old(failTracker.outcomes), |calls|)
    ensures messages == history + Results(w, step, calls, old(failTracker.outcomes))
  {
    ghost var before := failTracker.outcomes;
    ghost var results, notes := ToolMessages(w, step, calls), Notes(w, step, calls, before);
    messages := history;
    assert history + [] == history;
    for i: nat := 0 to |calls|
      invariant failTracker.Valid() && failTracker.outcomes == Outcomes(w, step, calls, before, i)
      invariant messages == history + Interleaved(results, notes, i)
    {
      InterleavedNext(history, results, notes, i);
      messages := ExecuteTool(w, step, calls, i, messages, failTracker, before);
    }
  }

  lemma {:induction false} SystemAddsNothing(ms: seq<Message>, notes: seq<Message>)
    requires AllSystem(notes)
    ensures Debts(ms).Owing? ==> Debts(ms + notes) == Debts(ms)
    ensures Dialogue(ms + notes) == Dialogue(ms)
  {
    if notes == [] {
      assert ms + notes == ms;
    } else {
      SystemAddsNothing(ms, notes[..|notes| - 1]);
      assert (ms + notes)[..|ms + notes| - 1] == ms + notes[..|notes| - 1];
    }
  }

  /** A result settles the call that is owed first. */
  lemma ResultSettles(ms: seq<Message>, sofar: seq<Message>, m: Message, note: seq<Message>, ids: seq<string>, i: nat)
    requires i < |ids| && Debts(ms + sofar) == Owing(ids[i..]) && AllSystem(note)
    requires m.role.Tool? && m.calls == [] && m.toolCallId == ids[i]
    ensures Debts(ms + (sofar + ([m] + note))) == Owing(ids[i + 1..])
  {
    assert ids[i..][1..] == ids[i + 1..];
    DebtsSnoc(ms + sofar, m);
    SystemAddsNothing(ms + sofar + [m], note);
    Assoc(ms + sofar, [m], note);
    Assoc(ms, sofar, [m] + note);
  }

  /** `results` answer `ids`, in order, and nothing but system messages comes with them. */
  ghost predicate Answering(ids: seq<string>, results: seq<Message>, notes: seq<seq<Message>>)
  {
    && |ids| == |results| == |notes|
    && (forall i :: 0 <= i < |results| ==>
      results[i].role.Tool? && results[i].calls == [] && results[i].toolCallId == ids[i])
    && forall i :: 0 <= i < |notes| ==> AllSystem(notes[i])
  }

  /** The results settle what the assistant message owes, call by call. */
  lemma {:induction false} ResultsSettle(ms: seq<Message>, ids: seq<string>, results: seq<Message>,
                                         notes: seq<seq<Message>>, n: nat)
    requires Answering(ids, results, notes) && n <= |ids| && Debts(ms) == Owing(ids)
    ensures Debts(ms + Interleaved(results, notes, n)) == Owing(ids[n..])
  {
    if n == 0 {
      assert ms + [] == ms;
      assert ids[0..] == ids;
    } else {
      ResultsSettle(ms, ids, results, notes, n - 1);
      ResultSettles(ms, Interleaved(results, notes, n - 1), results[n - 1], notes[n - 1], ids, n - 1);
    }
  }

  /** A whole step: the assistant message and its results. */
  lemma TurnWellFormed(w: World, step: nat, content: string, calls: seq<ToolCall>, before: seq<Outcome>,
                       ms: seq<Message>)
    requires WellFormed(ms)
    ensures WellFormed(ms + [AssistantMessage(content, calls)] + Results(w, step, calls, before))
  {
    var asked := ms + [AssistantMessage(content, calls)];
    DebtsSnoc(ms, AssistantMessage(content, calls));
    var ids := Ids(calls);
    ResultsSettle(asked, ids, ToolMessages(w, step, calls), Notes(w, step, calls, before), |calls|);
    assert ids[|ids|..] == [];
  }

  // ---- calling the model ----

  function Retries(cfg: Config): nat
  {
    if cfg.llmRetries < 1 then 1 else cfg.llmRetries
  }

  /** The first `n` attempts to send `request` failed and none of the waits after them was cancelled. */
  ghost predicate KeptFailing(w: World, step: nat, request: seq<Message>, n: nat)
  {
    forall k: nat :: k < n ==> w.chat(step, k, request).Failed? && !w.cancelledInRetry(step, k)
  }

  /** The reply is the first that succeeded, or the last. */
  ghost predicate RepliedAt(w: World, cfg: Config, step: nat, request: seq<Message>, reply: Reply)
  {
    exists k: nat :: k < Retries(cfg) && KeptFailing(w, step, request, k) && reply == w.chat(step, k, request)
      && (reply.Answer? || k == Retries(cfg) - 1)
  }

  ghost predicate CancelledRetrying(w: World, cfg: Config, step: nat, request: seq<Message>)
  {
    exists k: nat ::
      && k < Retries(cfg) - 1 && KeptFailing(w, step, request, k)
      && w.chat(step, k, request).Failed? && w.cancelledInRetry(step, k)
  }

  method ChatWithRetry(w: World, cfg: Config, step: nat, messages: seq<Message>) returns (reply: Reply, cancelled: bool)
    ensures cancelled ==> CancelledRetrying(w, cfg, step, messages)
    ensures !cancelled ==> RepliedAt(w, cfg, step, messages, reply)
  {
    var retries := cfg.llmRetries;
    if retries < 1 {
      retries := 1;
    }
    cancelled := false;
    reply := w.chat(step, 0, messages);
    for attempt: nat := 0 to retries
      invariant KeptFailing(w, step, messages, if attempt == retries then attempt - 1 else attempt)
      invariant attempt == retries ==> reply == w.chat(step, retries - 1, messages)
    {
      reply := w.chat(step, attempt, messages);
      if reply.Answer? {
        return;
      }
      if attempt < retries - 1 {
        if w.cancelledInRetry(step, attempt) {
          return reply, true;
        }
      }
    }
  }

  // ---- the loop ----

  lemma {:induction false} DialogueAppend(a: seq<Message>, b: seq<Message>)
    ensures Dialogue(a + b) == Dialogue(a) + Dialogue(b)
  {
    if b == [] {
      assert a + b == a;
    } else {
      assert (a + b)[..|a + b| - 1] == a + b[..|b| - 1];
      DialogueAppend(a, b[..|b| - 1]);
    }
  }

  lemma DialogueOne(m: Message)
    ensures Dialogue([m]) == if m.role.System? then [] else [m]
  {
    assert [m][..0] == [];
  }

  /** One step's share of the dialogue. */
  function Turn(w: World, step: nat, content: string, calls: seq<ToolCall>): seq<Message>
  {
    [AssistantMessage(content, calls)] + ToolMessages(w, step, calls)
  }

  lemma ResultDialogue(sofar: seq<Message>, m: Message, note: seq<Message>, said: seq<Message>)
    requires Dialogue(sofar) == said && !m.role.System? && AllSystem(note)
    ensures Dialogue(sofar + ([m] + note)) == said + [m]
  {
    DialogueAppend(sofar, [m]);
    DialogueOne(m);
    SystemAddsNothing(sofar + [m], note);
    Assoc(sofar, [m], note);
  }

  lemma TakeNext(ms: seq<Message>, i: nat)
    requires i < |ms|
    ensures ms[..i + 1] == ms[..i] + [ms[i]]
  {
  }

  lemma {:induction false} ResultsDialogue(ids: seq<string>, results: seq<Message>, notes: seq<seq<Message>>, n: nat)
    requires Answering(ids, results, notes) && n <= |ids|
    ensures Dialogue(Interleaved(results, notes, n)) == results[..n]
  {
    if n > 0 {
      ResultsDialogue(ids, results, notes, n - 1);
      ResultDialogue(Interleaved(results, notes, n - 1), results[n - 1], notes[n - 1], results[..n - 1]);
      TakeNext(results, n - 1);
    }
  }

  ghost predicate AllAnswers(turns: seq<Reply>)
  {
    forall t <- turns :: t.Answer?
  }

  function StepCalls(w: World, t: Reply): seq<ToolCall>
    requires t.Answer?
  {
    ToolCallDedupe.FirstCalls(w.codec, t.calls)
  }

  /** What the whole steps from `from` on say: each reply with its distinct calls, then their results. */
  ghost function SaidFrom(w: World, turns: seq<Reply>, from: nat): seq<Message>
    requires AllAnswers(turns)
  {
    if |turns| <= from then []
    else
      var init, t := turns[..|turns| - 1], turns[|turns| - 1];
      SaidFrom(w, init, from) + Turn(w, |init|, t.content, StepCalls(w, t))
  }

  /** What a run has built from its history, or from what pruning left of it: an extension that stays
      well-formed and, system messages aside, adds exactly what was `said`. */
  ghost predicate Grown(history: seq<Message>, messages: seq<Message>, said: seq<Message>)
  {
    && history <= messages
    && (WellFormed(history) ==> WellFormed(messages))
    && Dialogue(messages) == Dialogue(history) + said
  }

  lemma TurnDialogue(messages: seq<Message>, m: Message, results: seq<Message>, said: seq<Message>)
    requires !m.role.System? && Dialogue(results) == said
    ensures Dialogue(messages + [m] + results) == Dialogue(messages) + ([m] + said)
  {
    DialogueAppend(messages, [m]);
    DialogueOne(m);
    DialogueAppend(messages + [m], results);
    Assoc(Dialogue(messages), [m], said);
  }

  lemma GrownBy(history: seq<Message>, messages: seq<Message>, said: seq<Message>, m: Message, results: seq<Message>,
                replies: seq<Message>)
    requires Grown(history, messages, said) && !m.role.System? && Dialogue(results) == replies
    requires WellFormed(messages) ==> WellFormed(messages + [m] + results)
    ensures Grown(history, messages + [m] + results, said + ([m] + replies))
  {
    TurnDialogue(messages, m, results, replies);
    Assoc(Dialogue(history), said, [m] + replies);
  }

  lemma AllResultsDialogue(w: World, step: nat, calls: seq<ToolCall>, before: seq<Outcome>)
    ensures Dialogue(Results(w, step, calls, before)) == ToolMessages(w, step, calls)
  {
    var results := ToolMessages(w, step, calls);
    ResultsDialogue(Ids(calls), results, Notes(w, step, calls, before), |calls|);
    assert results[..|results|] == results;
  }

  lemma GrownByTurn(w: World, step: nat, content: string, calls: seq<ToolCall>, before: seq<Outcome>,
                    history: seq<Message>, messages: seq<Message>, said: seq<Message>)
    requires Grown(history, messages, said)
    ensures Grown(history, messages + [AssistantMessage(content, calls)] + Results(w, step, calls, before),
                  said + Turn(w, step, content, calls))
  {
    AllResultsDialogue(w, step, calls, before);
    if WellFormed(messages) {
      TurnWellFormed(w, step, content, calls, before, messages);
    }
    GrownBy(history, messages, said, AssistantMessage(content, calls),
            Results(w, step, calls, before), ToolMessages(w, step, calls));
  }

  /** What is added in front of a request: a periodic reflection and one that the state of the run asks for. */
  function Reflections(w: World, cfg: Config, step: nat): (r: seq<Message>)
    ensures AllSystem(r)
  {
    (if cfg.enableReflection && step > 0 && step % 10 == 0 then [SystemMessage(w.reflection(step))] else [])
    + (if cfg.enableReflection && w.needsReflection(step) then [SystemMessage(w.reflection(step))] else [])
  }

  method Reflect(w: World, cfg: Config, step: nat, messages: seq<Message>) returns (r: seq<Message>)
    ensures r == messages + Reflections(w, cfg, step)
  {
    r := messages;
    if cfg.enableReflection {
      if step > 0 && step % 10 == 0 {
        r := r + [SystemMessage(w.reflection(step))];
      }
      if w.needsReflection(step) {
        r := r + [SystemMessage(w.reflection(step))];
      }
    }
  }

  /** The messages after a reply: what was sent, the reply with its distinct calls, their results. */
  function Answered(w: World, step: nat, sent: seq<Message>, t: Reply, before: seq<Outcome>): seq<Message>
    requires t.Answer?
  {
    sent + [AssistantMessage(t.content, StepCalls(w, t))] + Results(w, step, StepCalls(w, t), before)
  }

  /** One step's calls, deduplicated, announced and executed. */
  method AnswerCalls(w: World, step: nat, t: Reply, messages: seq<Message>, failTracker: ConsecutiveFailureTracker)
    returns (r: seq<Message>)
    requires ToolCallDedupe.Faithful(w.codec) && failTracker.Valid() && t.Answer?
    modifies failTracker
    ensures failTracker.Valid()
    ensures failTracker.outcomes ==
      Outcomes(w, step, StepCalls(w, t), old(failTracker.outcomes), |StepCalls(w, t)|)
    ensures r == Answered(w, step, messages, t, old(failTracker.outcomes))
  {
    var calls := ToolCallDedupe.DedupeToolCalls(w.codec, t.calls);
    r := messages + [AssistantMessage(t.content, calls)];
    r := ExecuteTools(w, step, calls, r, failTracker);
  }
}
