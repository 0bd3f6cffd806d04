/** What is in the messages of a run: which reply, which tool's result under which id, and which prompts. */
module RunContents {
  import opened AgentLoop
  import opened AgentRun
  import opened Conversation
  import opened Subsequences
  import ToolCallDedupe

  // ---- one step ----

  /** System messages aside: the reply with the calls `cs`, then what each call's own tool said, under the call's
      own id. */
  ghost predicate SaysStep(w: World, step: nat, content: string, cs: seq<ToolCall>, d: seq<Message>)
  {
    && |d| == 1 + |cs| && d[0] == Message(Assistant, content, cs, "", false)
    && forall j :: 0 <= j < |cs| ==> d[1 + j] == Message(Tool, w.execute(step, j).content, [], cs[j].id, false)
  }

  lemma TurnSays(w: World, step: nat, content: string, cs: seq<ToolCall>)
    ensures SaysStep(w, step, content, cs, Turn(w, step, content, cs))
  {
  }

  /** What a step adds to the request, and that it keeps all of it. */
  ghost predicate Adds(w: World, step: nat, request: seq<Message>, t: Reply, after: seq<Message>)
    requires t.Answer?
  {
    && request <= after
    && SaysStep(w, step, t.content, StepCalls(w, t), Dialogue(after[|request|..]))
  }

  lemma FirstSpoken(m: Message, results: seq<Message>, said: seq<Message>)
    requires !m.role.System? && Dialogue(results) == said
    ensures Dialogue([m] + results) == [m] + said
  {
    DialogueAppend([m], results);
    DialogueOne(m);
  }

  lemma Suffix(request: seq<Message>, m: Message, results: seq<Message>)
    ensures request <= request + [m] + results && (request + [m] + results)[|request|..] == [m] + results
  {
  }

  lemma AnsweredAdds(w: World, step: nat, request: seq<Message>, t: Reply, before: seq<Outcome>)
    requires t.Answer?
    ensures Adds(w, step, request, t, Answered(w, step, request, t, before))
  {
    var cs := StepCalls(w, t);
    var m, results := AssistantMessage(t.content, cs), Results(w, step, cs, before);
    Suffix(request, m, results);
    AllResultsDialogue(w, step, cs, before);
    FirstSpoken(m, results, ToolMessages(w, step, cs));
    TurnSays(w, step, t.content, cs);
  }

  /** A whole step leaves its request and, system messages aside, the reply with its distinct calls and each call's
      own result. */
  lemma StepAdds(w: World, cfg: Config, history: seq<Message>, turns: seq<Reply>, k: nat)
    requires AllAnswers(turns) && k < |turns|
    ensures Adds(w, k, Request(w, cfg, history, turns[..k]), turns[k], Start(w, cfg, history, turns[..k + 1]))
  {
    assert turns[..k + 1] == turns[..k] + [turns[k]];
    NextStart(w, cfg, history, turns[..k], turns[k]);
    AnsweredAdds(w, k, Request(w, cfg, history, turns[..k]), turns[k], OutcomesOf(w, turns[..k]));
  }

  /** No call before the `i`-th is the same call. */
  predicate NewCall(c: ToolCallDedupe.Codec, calls: seq<ToolCall>, i: nat)
    requires i < |calls|
  {
    forall j :: 0 <= j < i ==> !ToolCallDedupe.SameCall(c, calls[j], calls[i])
  }

  lemma {:induction false} FirstCallsPicked(c: ToolCallDedupe.Codec, calls: seq<ToolCall>) returns (idx: seq<nat>)
    ensures PickedBy(ToolCallDedupe.FirstCalls(c, calls), calls, idx)
    ensures forall i: nat :: i < |calls| ==> (i in idx <==> NewCall(c, calls, i))
  {
    if calls == [] {
      idx := [];
    } else {
      var n := |calls| - 1;
      var init, x := calls[..n], calls[n];
      assert calls == init + [x];
      idx := FirstCallsPicked(c, init);
      assert forall i: nat :: i < n ==> (NewCall(c, init, i) <==> NewCall(c, calls, i));
      PickedSnoc(ToolCallDedupe.FirstCalls(c, init), init, idx, x);
      if NewCall(c, calls, n) {
        forall i: nat | i < |calls| ensures i in idx + [n] <==> NewCall(c, calls, i) { InSnoc(idx, n, i); }
        idx := idx + [n];
      }
    }
  }

  /** The calls of a step are those of its reply that are not the same as an earlier one, in order. */
  lemma StepCallsAre(w: World, t: Reply) returns (idx: seq<nat>)
    requires t.Answer?
    ensures PickedBy(StepCalls(w, t), t.calls, idx)
    ensures forall i: nat :: i < |t.calls| ==> (i in idx <==> NewCall(w.codec, t.calls, i))
  {
    idx := FirstCallsPicked(w.codec, t.calls);
  }

  // ---- a whole run ----

  /** Step by step. */
  ghost predicate Says(w: World, turns: seq<Reply>, d: seq<Message>)
    requires AllAnswers(turns)
    decreases |turns|
  {
    if turns == [] then d == []
    else
      var init, t := turns[..|turns| - 1], turns[|turns| - 1];
      exists rest, last :: d == rest + last && Says(w, init, rest)
        && SaysStep(w, |init|, t.content, StepCalls(w, t), last)
  }

  lemma {:induction false} SaidSays(w: World, turns: seq<Reply>)
    requires AllAnswers(turns)
    ensures Says(w, turns, SaidFrom(w, turns, 0))
    decreases |turns|
  {
    if turns != [] {
      var init, t := turns[..|turns| - 1], turns[|turns| - 1];
      SaidSays(w, init);
      TurnSays(w, |init|, t.content, StepCalls(w, t));
      assert SaidFrom(w, turns, 0) == SaidFrom(w, init, 0) + Turn(w, |init|, t.content, StepCalls(w, t));
    }
  }

  /** No request of the run is cut. */
  ghost predicate Uncut(w: World, cfg: Config, history: seq<Message>, turns: seq<Reply>, e: Ending)
    requires AllAnswers(turns)
  {
    && (forall k :: 0 <= k < |turns| ==> !Cuts(w, cfg, Draft(w, cfg, history, turns[..k])))
    && (Asked(e) ==> !Cuts(w, cfg, Draft(w, cfg, history, turns)))
  }

  /** What a run returns begins with its history and, system messages aside, adds every reply with its distinct calls
      and every call's own result, in order. (After a cut the same holds from step to step.) */
  lemma RunSays(w: World, cfg: Config, history: seq<Message>, turns: seq<Reply>, e: Ending, r: RunResult)
    requires RunOk(w, cfg, history, turns, e, r) && Uncut(w, cfg, history, turns, e)
    ensures history <= r.messages
    ensures exists d :: Dialogue(r.messages) == Dialogue(history) + d && Says(w, turns, d)
  {
    GrowsFromHistory(w, cfg, history, turns);
    SaidSays(w, turns);
  }

  // ---- prompts ----

  /** The outcomes of a step's first `n` calls. */
  function OwnOutcomes(w: World, step: nat, cs: seq<ToolCall>, n: nat): seq<Outcome>
    requires n <= |cs|
  {
    seq(n, i requires 0 <= i < n => Outcome(cs[i].name, w.execute(step, i).failed))
  }

  lemma {:induction false} OutcomesAre(w: World, step: nat, cs: seq<ToolCall>, before: seq<Outcome>, n: nat)
    requires n <= |cs|
    ensures Outcomes(w, step, cs, before, n) == before + OwnOutcomes(w, step, cs, n)
  {
    if n > 0 {
      OutcomesAre(w, step, cs, before, n - 1);
      assert OwnOutcomes(w, step, cs, n) ==
        OwnOutcomes(w, step, cs, n - 1) + [Outcome(cs[n - 1].name, w.execute(step, n - 1).failed)];
    }
  }

  /** The prompt after call `j`: none, unless the tool of this call has now failed three times in a row or more, and
      then one for this tool with the number of failures. */
  ghost predicate PromptAfter(w: World, step: nat, cs: seq<ToolCall>, before: seq<Outcome>, j: nat, note: seq<Message>)
    requires j < |cs|
  {
    var streak := Streak(before + OwnOutcomes(w, step, cs, j + 1));
    note == if streak >= 3 then [Message(System, w.stepBack(cs[j].name, streak), [], "", false)] else []
  }

  /** `all` is `front`, then the result of call `j` with its prompt, then the rest. */
  ghost predicate StandsAt(w: World, step: nat, cs: seq<ToolCall>, before: seq<Outcome>, j: nat, all: seq<Message>,
                           front: seq<Message>, note: seq<Message>, rest: seq<Message>)
    requires j < |cs|
  {
    && all == front + [Message(Tool, w.execute(step, j).content, [], cs[j].id, false)] + note + rest
    && |Dialogue(front)| == j && PromptAfter(w, step, cs, before, j, note)
  }

  lemma {:induction false} SplitAt(results: seq<Message>, notes: seq<seq<Message>>, j: nat, n: nat)
    returns (rest: seq<Message>)
    requires j < n <= |results| == |notes|
    ensures Interleaved(results, notes, n) == Interleaved(results, notes, j) + [results[j]] + notes[j] + rest
  {
    if n == j + 1 {
      rest := [];
      assert Interleaved(results, notes, n) ==
        Interleaved(results, notes, j) + [results[j]] + notes[j] + rest;
    } else {
      var less := SplitAt(results, notes, j, n - 1);
      rest := less + ([results[n - 1]] + notes[n - 1]);
    }
  }

  lemma NoteIsPrompt(w: World, step: nat, cs: seq<ToolCall>, before: seq<Outcome>, j: nat)
    requires j < |cs|
    ensures PromptAfter(w, step, cs, before, j, NoteAfter(w, step, cs, before, j))
  {
    OutcomesAre(w, step, cs, before, j + 1);
  }

  lemma FrontDialogue(w: World, step: nat, cs: seq<ToolCall>, before: seq<Outcome>, j: nat)
    requires j < |cs|
    ensures |Dialogue(Interleaved(ToolMessages(w, step, cs), Notes(w, step, cs, before), j))| == j
  {
    ResultsDialogue(Ids(cs), ToolMessages(w, step, cs), Notes(w, step, cs, before), j);
  }

  /** Every result is followed by its prompt, if it is due, and by nothing else before the next result. */
  lemma PromptsStand(w: World, step: nat, cs: seq<ToolCall>, before: seq<Outcome>, j: nat)
    returns (front: seq<Message>, note: seq<Message>, rest: seq<Message>)
    requires j < |cs|
    ensures StandsAt(w, step, cs, before, j, Results(w, step, cs, before), front, note, rest)
  {
    var results, notes := ToolMessages(w, step, cs), Notes(w, step, cs, before);
    rest := SplitAt(results, notes, j, |cs|);
    front, note := Interleaved(results, notes, j), NoteAfter(w, step, cs, before, j);
    NoteIsPrompt(w, step, cs, before, j);
    FrontDialogue(w, step, cs, before, j);
    assert results[j] == Message(Tool, w.execute(step, j).content, [], cs[j].id, false);
  }

  /** A tenth step, not counting the first. */
  ghost predicate Tenth(n: nat) { exists m: nat :: m >= 1 && n == 10 * m }

  lemma TenthIff(n: nat)
    ensures Tenth(n) <==> n > 0 && n % 10 == 0
  {
    if n > 0 && n % 10 == 0 { assert n == 10 * (n / 10); }
  }

  /** `k` prompts of this step's text. */
  function Prompts(w: World, step: nat, k: nat): seq<Message>
  {
    seq(k, _ => Message(System, w.reflection(step), [], "", false))
  }

  lemma ReflectionsAre(w: World, cfg: Config, n: nat)
    ensures !cfg.enableReflection ==> Reflections(w, cfg, n) == []
    ensures cfg.enableReflection ==>
      Reflections(w, cfg, n) == Prompts(w, n, (if Tenth(n) then 1 else 0) + if w.needsReflection(n) then 1 else 0)
  {
    TenthIff(n);
  }

  /** A request that fits is what the last step left with, when reflection is enabled, one prompt at every tenth step
      and one whenever the run calls for it. */
  lemma RequestThatFits(w: World, cfg: Config, history: seq<Message>, turns: seq<Reply>)
    requires AllAnswers(turns) && Tokens(Draft(w, cfg, history, turns), w.exactTokens) <= cfg.maxContextTokens
    ensures var n, start := |turns|, Start(w, cfg, history, turns);
      var k := (if Tenth(n) then 1 else 0) + if w.needsReflection(n) then 1 else 0;
      Request(w, cfg, history, turns) == start + if cfg.enableReflection then Prompts(w, n, k) else []
  {
    ReflectionsAre(w, cfg, |turns|);
  }

  /** The outcomes the tracker has seen are those of every call so far, in order. */
  lemma OutcomesSoFar(w: World, turns: seq<Reply>)
    requires AllAnswers(turns) && turns != []
    ensures var init, t := turns[..|turns| - 1], turns[|turns| - 1];
      OutcomesOf(w, turns) == OutcomesOf(w, init) + OwnOutcomes(w, |init|, StepCalls(w, t), |StepCalls(w, t)|)
  {
    var init, t := turns[..|turns| - 1], turns[|turns| - 1];
    OutcomesAre(w, |init|, StepCalls(w, t), OutcomesOf(w, init), |StepCalls(w, t)|);
  }

  /** After the request and the reply of step `k`, every result stands with its prompt. */
  lemma StepPrompts(w: World, cfg: Config, history: seq<Message>, turns: seq<Reply>, k: nat, j: nat)
    returns (front: seq<Message>, note: seq<Message>, rest: seq<Message>)
    requires AllAnswers(turns) && k < |turns| && j < |StepCalls(w, turns[k])|
    ensures var request, after := Request(w, cfg, history, turns[..k]), Start(w, cfg, history, turns[..k + 1]);
      && |request| < |after|
      && StandsAt(w, k, StepCalls(w, turns[k]), OutcomesOf(w, turns[..k]), j, after[|request| + 1..], front, note, rest)
  {
    var t, cs, before := turns[k], StepCalls(w, turns[k]), OutcomesOf(w, turns[..k]);
    assert turns[..k + 1] == turns[..k] + [t];
    NextStart(w, cfg, history, turns[..k], t);
    front, note, rest := PromptsStand(w, k, cs, before, j);
    AfterFirst(Request(w, cfg, history, turns[..k]), AssistantMessage(t.content, cs), Results(w, k, cs, before));
  }

  lemma AfterFirst(request: seq<Message>, m: Message, results: seq<Message>)
    ensures (request + [m] + results)[|request| + 1..] == results
  {
  }
}
