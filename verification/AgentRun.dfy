/** A whole run of the ReAct loop, through every pruning of its history: what the model is sent at every step,
    what is returned, and when all of it is well-formed. */
module AgentRun {
  import opened AgentLoop
  import opened Conversation
  import opened HistoryPruner
  import AnthropicProvider
  import PrunedHistory
  import ToolPairing

  // ---- what the model is sent ----

  /** What is left of messages over budget; otherwise the messages themselves. */
  function Budgeted(w: World, cfg: Config, ms: seq<Message>): seq<Message>
  {
    if Tokens(ms, w.exactTokens) > cfg.maxContextTokens then Pruned(ms, cfg.maxContextTokens, w.estimate) else ms
  }

  method FitBudget(w: World, cfg: Config, messages: seq<Message>) returns (r: seq<Message>)
    ensures r == Budgeted(w, cfg, messages)
  {
    var totalTokens := CountTokens(messages, w.exactTokens);
    r := messages;
    if totalTokens > cfg.maxContextTokens {
      ghost var keep, stop;
      r, keep, stop := PruneMessages(messages, cfg.maxContextTokens, w.estimate);
    }
  }

  /** The tool outcomes of whole steps, for the failure tracker. */
  function OutcomesOf(w: World, turns: seq<Reply>): seq<Outcome>
    requires AllAnswers(turns)
  {
    if turns == [] then []
    else
      var init, t := turns[..|turns| - 1], turns[|turns| - 1];
      Outcomes(w, |init|, StepCalls(w, t), OutcomesOf(w, init), |StepCalls(w, t)|)
  }

  /** The messages after whole steps with these replies. */
  function Start(w: World, cfg: Config, history: seq<Message>, turns: seq<Reply>): seq<Message>
    requires AllAnswers(turns)
    decreases |turns|, 0
  {
    if turns == [] then history
    else
      var init, t := turns[..|turns| - 1], turns[|turns| - 1];
      Answered(w, |init|, Request(w, cfg, history, init), t, OutcomesOf(w, init))
  }

  /** The messages of the next step before the token budget is looked at. */
  function Draft(w: World, cfg: Config, history: seq<Message>, turns: seq<Reply>): seq<Message>
    requires AllAnswers(turns)
    decreases |turns|, 1
  {
    Start(w, cfg, history, turns) + Reflections(w, cfg, |turns|)
  }

  /** What the model is sent after whole steps with these replies. */
  function Request(w: World, cfg: Config, history: seq<Message>, turns: seq<Reply>): seq<Message>
    requires AllAnswers(turns)
    decreases |turns|, 2
  {
    Budgeted(w, cfg, Draft(w, cfg, history, turns))
  }

  // ---- the run ----

  /** A step that was taken: not cancelled, and its request answered with calls. */
  ghost predicate TurnAt(w: World, cfg: Config, step: nat, request: seq<Message>, reply: Reply)
  {
    !w.cancelled(step) && RepliedAt(w, cfg, step, request, reply) && reply.Answer? && reply.calls != []
  }

  ghost predicate TurnsTaken(w: World, cfg: Config, history: seq<Message>, turns: seq<Reply>)
    requires AllAnswers(turns)
  {
    forall j :: 0 <= j < |turns| ==> TurnAt(w, cfg, j, Request(w, cfg, history, turns[..j]), turns[j])
  }

  /** Why a run ends. Only the last three sent the model something in the last step. */
  datatype Ending = StepLimit | CancelledBefore | CancelledBetween | ChatFailed(error: string) | Final(content: string)

  predicate Asked(e: Ending) { e.CancelledBetween? || e.ChatFailed? || e.Final? }

  function Steps(cfg: Config): nat { if cfg.maxSteps < 0 then 0 else cfg.maxSteps }

  /** The run ends for reason `e` after whole steps with replies `turns`, and returns `r`. */
  ghost predicate EndedAt(w: World, cfg: Config, history: seq<Message>, turns: seq<Reply>, e: Ending, r: RunResult)
    requires AllAnswers(turns)
  {
    var n, request := |turns|, Request(w, cfg, history, turns);
    && n <= Steps(cfg) && (e.StepLimit? <==> n == Steps(cfg))
    && (Asked(e) ==> !w.cancelled(n))
    && match e
       case StepLimit => r == RunResult("", Start(w, cfg, history, turns), false, cfg.maxSteps, true)
       case CancelledBefore =>
         w.cancelled(n) && r == RunResult("Request cancelled", Start(w, cfg, history, turns), true, n, false)
       case CancelledBetween =>
         && CancelledRetrying(w, cfg, n, request)
         && r == RunResult("Context cancelled during LLM retry", request, true, n, false)
       case ChatFailed(error) =>
         && RepliedAt(w, cfg, n, request, Failed(error))
         && r == RunResult("LLM call failed after retries: " + error, request, true, n, false)
       case Final(content) =>
         RepliedAt(w, cfg, n, request, Answer(content, [])) && r == RunResult(content, request, true, n + 1, false)
  }

  /** A run: the replies of its whole steps, why it ended, and what it returned. */
  ghost predicate RunOk(w: World, cfg: Config, history: seq<Message>, turns: seq<Reply>, e: Ending, r: RunResult)
  {
    AllAnswers(turns) && TurnsTaken(w, cfg, history, turns) && EndedAt(w, cfg, history, turns, e, r)
  }

  /** All that the model is sent in a run, step by step. */
  function Requests(w: World, cfg: Config, history: seq<Message>, turns: seq<Reply>, e: Ending): seq<seq<Message>>
    requires AllAnswers(turns)
  {
    var n := |turns| + if Asked(e) then 1 else 0;
    seq(n, k requires 0 <= k < n => Request(w, cfg, history, turns[..k]))
  }

  lemma TurnAdded(w: World, cfg: Config, history: seq<Message>, turns: seq<Reply>, t: Reply)
    requires AllAnswers(turns) && TurnsTaken(w, cfg, history, turns)
    requires TurnAt(w, cfg, |turns|, Request(w, cfg, history, turns), t)
    ensures AllAnswers(turns + [t]) && TurnsTaken(w, cfg, history, turns + [t])
  {
    var all := turns + [t];
    forall j | 0 <= j < |all| ensures TurnAt(w, cfg, j, Request(w, cfg, history, all[..j]), all[j]) {
      assert all[..j] == turns[..j];
      if j == |turns| { assert turns[..j] == turns; }
    }
  }

  lemma NextStart(w: World, cfg: Config, history: seq<Message>, turns: seq<Reply>, t: Reply)
    requires AllAnswers(turns) && t.Answer?
    ensures Start(w, cfg, history, turns + [t])
         == Answered(w, |turns|, Request(w, cfg, history, turns), t, OutcomesOf(w, turns))
    ensures OutcomesOf(w, turns + [t])
         == Outcomes(w, |turns|, StepCalls(w, t), OutcomesOf(w, turns), |StepCalls(w, t)|)
  {
    assert (turns + [t])[..|turns|] == turns;
  }

  /** One step: either the run ends here, or a whole turn is added. */
  method Step(w: World, cfg: Config, history: seq<Message>, ghost turns: seq<Reply>, step: nat,
              messages: seq<Message>, failTracker: ConsecutiveFailureTracker)
    returns (ended: bool, r: RunResult, ghost e: Ending, ghost reply: Reply)
    requires ToolCallDedupe.Faithful(w.codec) && failTracker.Valid() && AllAnswers(turns)
    requires step == |turns| < cfg.maxSteps && messages == Start(w, cfg, history, turns)
    requires failTracker.outcomes == OutcomesOf(w, turns)
    modifies failTracker
    ensures failTracker.Valid()
    ensures ended ==> r.done && EndedAt(w, cfg, history, turns, e, r)
    ensures !ended ==> TurnAt(w, cfg, step, Request(w, cfg, history, turns), reply)
    ensures !ended ==> r == RunResult("", Start(w, cfg, history, turns + [reply]), false, cfg.maxSteps, true)
    ensures !ended ==> failTracker.outcomes == OutcomesOf(w, turns + [reply])
  {
    ended, e, reply := true, CancelledBefore, Failed("");
    if w.cancelled(step) {
      r := RunResult("Request cancelled", messages, true, step, false);
      return;
    }
    var draft := Reflect(w, cfg, step, messages);
    var request := FitBudget(w, cfg, draft);
    var resp, cancelled := ChatWithRetry(w, cfg, step, request);
    reply := resp;
    if cancelled {
      r, e := RunResult("Context cancelled during LLM retry", request, true, step, false), CancelledBetween;
      return;
    }
    if resp.Failed? {
      r := RunResult("LLM call failed after retries: " + resp.error, request, true, step, false);
      e := ChatFailed(resp.error);
      return;
    }
    if |resp.calls| == 0 {
      r, e := RunResult(resp.content, request, true, step + 1, false), Final(resp.content);
      return;
    }
    NextStart(w, cfg, history, turns, resp);
    var answered := AnswerCalls(w, step, resp, request, failTracker);
    ended, r := false, RunResult("", answered, false, cfg.maxSteps, true);
  }

  /** The run, with the replies of its whole steps and the reason it ended. */
  method Run(w: World, cfg: Config, history: seq<Message>)
    returns (r: RunResult, ghost turns: seq<Reply>, ghost e: Ending)
    requires ToolCallDedupe.Faithful(w.codec)
    ensures if r.done then !r.hitStepLimit && 0 <= r.stepsUsed <= cfg.maxSteps
            else r.hitStepLimit && r.stepsUsed == cfg.maxSteps
    ensures RunOk(w, cfg, history, turns, e, r)
  {
    r, turns, e := RunResult("", history, false, cfg.maxSteps, true), [], StepLimit;
    var failTracker := new ConsecutiveFailureTracker();
    for step: nat := 0 to if cfg.maxSteps < 0 then 0 else cfg.maxSteps
      invariant step == |turns| && AllAnswers(turns) && TurnsTaken(w, cfg, history, turns)
      invariant failTracker.Valid() && fresh(failTracker) && failTracker.outcomes == OutcomesOf(w, turns)
      invariant r == RunResult("", Start(w, cfg, history, turns), false, cfg.maxSteps, true) && e == StepLimit
    {
      ghost var why, reply;
      var ended;
      ended, r, why, reply := Step(w, cfg, history, turns, step, r.messages, failTracker);
      if ended {
        e := why;
        return;
      }
      TurnAdded(w, cfg, history, turns, reply);
      turns := turns + [reply];
    }
  }

  // ---- the contract leaves nothing open ----

  lemma OneReply(w: World, cfg: Config, step: nat, request: seq<Message>, a: Reply, b: Reply)
    requires RepliedAt(w, cfg, step, request, a) && RepliedAt(w, cfg, step, request, b)
    ensures a == b && !CancelledRetrying(w, cfg, step, request)
  {
  }

  /** A run that takes a step with this request does not end there. */
  lemma TurnIsNoEnd(w: World, cfg: Config, history: seq<Message>, turns: seq<Reply>, t: Reply, e: Ending, r: RunResult)
    requires AllAnswers(turns) && TurnAt(w, cfg, |turns|, Request(w, cfg, history, turns), t)
    requires EndedAt(w, cfg, history, turns, e, r)
    ensures e.StepLimit?
  {
    var request := Request(w, cfg, history, turns);
    match e
    case StepLimit =>
    case CancelledBefore =>
    case CancelledBetween => OneReply(w, cfg, |turns|, request, t, t);
    case ChatFailed(error) => OneReply(w, cfg, |turns|, request, t, Failed(error));
    case Final(content) => OneReply(w, cfg, |turns|, request, t, Answer(content, []));
  }

  lemma PrefixNext(a: seq<Reply>, b: seq<Reply>, k: nat)
    requires k < |a| && k < |b| && a[..k] == b[..k] && a[k] == b[k]
    ensures a[..k + 1] == b[..k + 1]
  {
    assert a[..k + 1] == a[..k] + [a[k]] && b[..k + 1] == b[..k] + [b[k]];
  }

  lemma {:induction false} SamePrefix(w: World, cfg: Config, history: seq<Message>,
                                      a: seq<Reply>, b: seq<Reply>, k: nat)
    requires AllAnswers(a) && AllAnswers(b) && TurnsTaken(w, cfg, history, a) && TurnsTaken(w, cfg, history, b)
    requires k <= |a| && k <= |b|
    ensures a[..k] == b[..k]
  {
    if k > 0 {
      SamePrefix(w, cfg, history, a, b, k - 1);
      SameTurn(w, cfg, history, a, b, k - 1);
      PrefixNext(a, b, k - 1);
    }
  }

  lemma SameTurn(w: World, cfg: Config, history: seq<Message>, a: seq<Reply>, b: seq<Reply>, j: nat)
    requires AllAnswers(a) && AllAnswers(b) && TurnsTaken(w, cfg, history, a) && TurnsTaken(w, cfg, history, b)
    requires j < |a| && j < |b| && a[..j] == b[..j]
    ensures a[j] == b[j]
  {
    OneReply(w, cfg, j, Request(w, cfg, history, a[..j]), a[j], b[j]);
  }

  lemma NotShorter(w: World, cfg: Config, history: seq<Message>, a: seq<Reply>, b: seq<Reply>, e: Ending, r: RunResult)
    requires RunOk(w, cfg, history, a, e, r) && AllAnswers(b) && TurnsTaken(w, cfg, history, b) && |b| <= Steps(cfg)
    ensures |b| <= |a|
  {
    if |a| < |b| {
      SamePrefix(w, cfg, history, a, b, |a|);
      assert a[..|a|] == a && TurnAt(w, cfg, |a|, Request(w, cfg, history, b[..|a|]), b[|a|]);
      TurnIsNoEnd(w, cfg, history, a, b[|a|], e, r);
    }
  }

  /** Replies, tool results and cancellations fix everything: what is sent, why the run ends, what it returns. */
  lemma RunDetermined(w: World, cfg: Config, history: seq<Message>,
                      a: seq<Reply>, d: Ending, q: RunResult, b: seq<Reply>, e: Ending, r: RunResult)
    requires RunOk(w, cfg, history, a, d, q) && RunOk(w, cfg, history, b, e, r)
    ensures a == b && d == e && q == r
  {
    NotShorter(w, cfg, history, a, b, d, q);
    NotShorter(w, cfg, history, b, a, e, r);
    SamePrefix(w, cfg, history, a, b, |a|);
    assert a[..|a|] == a && b[..|b|] == b;
    var n, request := |a|, Request(w, cfg, history, a);
    if d.ChatFailed? || d.Final? {
      var x := if d.ChatFailed? then Failed(d.error) else Answer(d.content, []);
      OneReply(w, cfg, n, request, x, x);
      if e.ChatFailed? { OneReply(w, cfg, n, request, x, Failed(e.error)); }
      if e.Final? { OneReply(w, cfg, n, request, x, Answer(e.content, [])); }
    } else if d.CancelledBetween? {
      if e.ChatFailed? { OneReply(w, cfg, n, request, Failed(e.error), Failed(e.error)); }
      if e.Final? { OneReply(w, cfg, n, request, Answer(e.content, []), Answer(e.content, [])); }
    }
  }

  // ---- how the messages grow ----

  /** The token budget cuts the messages of the next step. */
  predicate Cuts(w: World, cfg: Config, ms: seq<Message>)
  {
    Tokens(ms, w.exactTokens) > cfg.maxContextTokens && |ms| > 5
  }

  lemma GrownByNotes(base: seq<Message>, ms: seq<Message>, said: seq<Message>, notes: seq<Message>)
    requires Grown(base, ms, said) && AllSystem(notes)
    ensures Grown(base, ms + notes, said)
  {
    SystemAddsNothing(ms, notes);
  }

  /** One more step, when the budget does not cut. */
  lemma GrownByStep(w: World, cfg: Config, history: seq<Message>, turns: seq<Reply>, base: seq<Message>, from: nat)
    requires AllAnswers(turns) && from < |turns|
    requires var init := turns[..|turns| - 1]; Grown(base, Request(w, cfg, history, init), SaidFrom(w, init, from))
    ensures Grown(base, Start(w, cfg, history, turns), SaidFrom(w, turns, from))
    ensures !Cuts(w, cfg, Draft(w, cfg, history, turns)) ==>
      Grown(base, Request(w, cfg, history, turns), SaidFrom(w, turns, from))
  {
    var init, t := turns[..|turns| - 1], turns[|turns| - 1];
    GrownByTurn(w, |init|, t.content, StepCalls(w, t), OutcomesOf(w, init), base,
                Request(w, cfg, history, init), SaidFrom(w, init, from));
    GrownByNotes(base, Start(w, cfg, history, turns), SaidFrom(w, turns, from), Reflections(w, cfg, |turns|));
  }

  /** Between one cut and the next the requests grow by what the turns say: each extends the one before it and,
      system messages aside, adds exactly the replies with their distinct calls and the results. */
  lemma {:induction false} GrowsBetweenCuts(w: World, cfg: Config, history: seq<Message>, turns: seq<Reply>, from: nat)
    requires AllAnswers(turns) && from < |turns|
    requires forall k :: from < k < |turns| ==> !Cuts(w, cfg, Draft(w, cfg, history, turns[..k]))
    ensures Grown(Request(w, cfg, history, turns[..from]), Start(w, cfg, history, turns), SaidFrom(w, turns, from))
    ensures !Cuts(w, cfg, Draft(w, cfg, history, turns)) ==>
      Grown(Request(w, cfg, history, turns[..from]), Request(w, cfg, history, turns), SaidFrom(w, turns, from))
    decreases |turns|
  {
    var init, base := turns[..|turns| - 1], Request(w, cfg, history, turns[..from]);
    assert forall k :: 0 <= k < |turns| ==> init[..k] == turns[..k];
    if from == |init| {
      assert turns[..from] == init && SaidFrom(w, init, from) == [];
      assert Dialogue(base) + [] == Dialogue(base);
    } else {
      GrowsBetweenCuts(w, cfg, history, init, from);
    }
    GrownByStep(w, cfg, history, turns, base, from);
  }

  /** Before the first cut they grow from the history. */
  lemma {:induction false} GrowsFromHistory(w: World, cfg: Config, history: seq<Message>, turns: seq<Reply>)
    requires AllAnswers(turns)
    requires forall k :: 0 <= k < |turns| ==> !Cuts(w, cfg, Draft(w, cfg, history, turns[..k]))
    ensures Grown(history, Start(w, cfg, history, turns), SaidFrom(w, turns, 0))
    ensures !Cuts(w, cfg, Draft(w, cfg, history, turns)) ==>
      Grown(history, Request(w, cfg, history, turns), SaidFrom(w, turns, 0))
    decreases |turns|
  {
    if turns == [] {
      assert Dialogue(history) + [] == Dialogue(history);
      GrownByNotes(history, history, [], Reflections(w, cfg, 0));
    } else {
      var init := turns[..|turns| - 1];
      assert forall k :: 0 <= k < |turns| ==> init[..k] == turns[..k];
      GrowsFromHistory(w, cfg, history, init);
      assert turns[..|init|] == init;
      GrownByStep(w, cfg, history, turns, history, 0);
    }
  }

  // ---- when a run keeps its transcript in order ----

  /** A cut is sound when what is put in front of the suffix owes what the messages it replaces owed. */
  predicate Sound(w: World, cfg: Config, ms: seq<Message>)
  {
    Cuts(w, cfg, ms) ==>
      var keep := KeepOf(ms, cfg.maxContextTokens, w.estimate); Debts(Head(ms, keep)) == Debts(ms[..|ms| - keep])
  }

  lemma CutIff(w: World, cfg: Config, ms: seq<Message>)
    requires WellFormed(ms)
    ensures WellFormed(Budgeted(w, cfg, ms)) <==> Sound(w, cfg, ms)
  {
    if Cuts(w, cfg, ms) {
      PrunedHistory.PrunedWellFormedIff(ms, KeepOf(ms, cfg.maxContextTokens, w.estimate));
    }
  }

  predicate SoundAt(w: World, cfg: Config, history: seq<Message>, turns: seq<Reply>)
    requires AllAnswers(turns)
  {
    Sound(w, cfg, Draft(w, cfg, history, turns))
  }

  /** A step hands on what it was given: from a well-formed request a well-formed draft, and from that a
      well-formed request exactly when the cut is sound. */
  lemma StepSound(w: World, cfg: Config, history: seq<Message>, turns: seq<Reply>)
    requires WellFormed(history) && AllAnswers(turns)
    requires turns != [] ==> WellFormed(Request(w, cfg, history, turns[..|turns| - 1]))
    ensures WellFormed(Start(w, cfg, history, turns))
    ensures WellFormed(Request(w, cfg, history, turns)) <==> SoundAt(w, cfg, history, turns)
  {
    if turns != [] {
      var init, t := turns[..|turns| - 1], turns[|turns| - 1];
      TurnWellFormed(w, |init|, t.content, StepCalls(w, t), OutcomesOf(w, init), Request(w, cfg, history, init));
    }
    SystemAddsNothing(Start(w, cfg, history, turns), Reflections(w, cfg, |turns|));
    CutIff(w, cfg, Draft(w, cfg, history, turns));
  }

  ghost predicate RequestFine(w: World, cfg: Config, history: seq<Message>, turns: seq<Reply>, k: nat)
    requires AllAnswers(turns) && k <= |turns|
  {
    WellFormed(Request(w, cfg, history, turns[..k]))
  }

  ghost predicate CutFine(w: World, cfg: Config, history: seq<Message>, turns: seq<Reply>, k: nat)
    requires AllAnswers(turns) && k <= |turns|
  {
    SoundAt(w, cfg, history, turns[..k])
  }

  /** The first `n` requests are well-formed. */
  ghost predicate FineUpTo(w: World, cfg: Config, history: seq<Message>, turns: seq<Reply>, n: nat)
    requires AllAnswers(turns) && n <= |turns| + 1
  {
    forall k :: 0 <= k < n ==> RequestFine(w, cfg, history, turns, k)
  }

  /** The first `n` cuts are sound. */
  ghost predicate SoundUpTo(w: World, cfg: Config, history: seq<Message>, turns: seq<Reply>, n: nat)
    requires AllAnswers(turns) && n <= |turns| + 1
  {
    forall k :: 0 <= k < n ==> CutFine(w, cfg, history, turns, k)
  }

  lemma OneMoreFine(w: World, cfg: Config, history: seq<Message>, turns: seq<Reply>, k: nat)
    requires WellFormed(history) && AllAnswers(turns) && k <= |turns|
    requires k > 0 ==> RequestFine(w, cfg, history, turns, k - 1)
    ensures RequestFine(w, cfg, history, turns, k) <==> CutFine(w, cfg, history, turns, k)
  {
    if k > 0 { assert turns[..k][..k - 1] == turns[..k - 1]; }
    StepSound(w, cfg, history, turns[..k]);
  }

  lemma {:induction false} SoundMeansFine(w: World, cfg: Config, history: seq<Message>, turns: seq<Reply>,
                                          n: nat, k: nat)
    requires WellFormed(history) && AllAnswers(turns) && k < n <= |turns| + 1 && SoundUpTo(w, cfg, history, turns, n)
    ensures RequestFine(w, cfg, history, turns, k)
  {
    if k > 0 { SoundMeansFine(w, cfg, history, turns, n, k - 1); }
    assert CutFine(w, cfg, history, turns, k);
    OneMoreFine(w, cfg, history, turns, k);
  }

  lemma FineMeansSound(w: World, cfg: Config, history: seq<Message>, turns: seq<Reply>, n: nat, k: nat)
    requires WellFormed(history) && AllAnswers(turns) && k < n <= |turns| + 1 && FineUpTo(w, cfg, history, turns, n)
    ensures CutFine(w, cfg, history, turns, k)
  {
    assert RequestFine(w, cfg, history, turns, k);
    if k > 0 { assert RequestFine(w, cfg, history, turns, k - 1); }
    OneMoreFine(w, cfg, history, turns, k);
  }

  /** Starting from a well-formed history, the first `n` requests are well-formed exactly when the first `n`
      cuts are sound. */
  lemma RequestsSoundIff(w: World, cfg: Config, history: seq<Message>, turns: seq<Reply>, n: nat)
    requires WellFormed(history) && AllAnswers(turns) && n <= |turns| + 1
    ensures FineUpTo(w, cfg, history, turns, n) <==> SoundUpTo(w, cfg, history, turns, n)
  {
    if FineUpTo(w, cfg, history, turns, n) {
      forall k | 0 <= k < n ensures CutFine(w, cfg, history, turns, k) { FineMeansSound(w, cfg, history, turns, n, k); }
    }
    if SoundUpTo(w, cfg, history, turns, n) {
      forall k | 0 <= k < n ensures RequestFine(w, cfg, history, turns, k) {
        SoundMeansFine(w, cfg, history, turns, n, k);
      }
    }
  }

  /** What a run returns is its last request, or what its last whole step left. */
  lemma ReturnedSound(w: World, cfg: Config, history: seq<Message>, turns: seq<Reply>, e: Ending, r: RunResult)
    requires WellFormed(history) && RunOk(w, cfg, history, turns, e, r)
    requires FineUpTo(w, cfg, history, turns, |Requests(w, cfg, history, turns, e)|)
    ensures WellFormed(r.messages)
  {
    var n := |turns|;
    assert turns[..n] == turns;
    if n > 0 { assert RequestFine(w, cfg, history, turns, n - 1); }
    if Asked(e) { assert RequestFine(w, cfg, history, turns, n); }
    StepSound(w, cfg, history, turns);
  }

  /** Starting from a well-formed history, every request of a run is well-formed if and only if every cut is
      sound; with none, in particular. Then the returned messages are well-formed too, and each request converts
      to a list the API accepts exactly when no call id is empty. */
  lemma RunSoundIff(w: World, cfg: Config, history: seq<Message>, turns: seq<Reply>, e: Ending, r: RunResult)
    requires WellFormed(history) && RunOk(w, cfg, history, turns, e, r)
    ensures var requests := Requests(w, cfg, history, turns, e);
      var sound := SoundUpTo(w, cfg, history, turns, |requests|);
      && ((forall q <- requests :: WellFormed(q)) <==> sound)
      && (sound ==> WellFormed(r.messages))
      && (sound ==> forall q <- requests ::
            ToolPairing.Paired(AnthropicProvider.Converted(q)) <==> ToolPairing.NamedCalls(q))
  {
    var requests := Requests(w, cfg, history, turns, e);
    RequestsSoundIff(w, cfg, history, turns, |requests|);
    assert forall k :: 0 <= k < |requests| ==> (RequestFine(w, cfg, history, turns, k) <==> WellFormed(requests[k]));
    if FineUpTo(w, cfg, history, turns, |requests|) {
      ReturnedSound(w, cfg, history, turns, e, r);
      forall q <- requests
        ensures WellFormed(q) && (ToolPairing.Paired(AnthropicProvider.Converted(q)) <==> ToolPairing.NamedCalls(q))
      {
        ToolPairing.PairedIffNamed(q);
      }
    }
  }
}
