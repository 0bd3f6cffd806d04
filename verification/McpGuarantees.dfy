/** What holds in every reachable state of a connection, and what that means for its callers. */
module McpGuarantees {
  import opened McpMultiplexer
  import opened Wrappers

  /** Request ids of all calls ever made differ, `inflight` is the number of calls in progress, and
      no finished call's id is left in `pending`. */
  lemma Bookkeeping(s: State)
    requires Reachable(s)
    ensures forall c, d :: 0 <= c < d < |s.callers| && HasId(s.callers[c]) && HasId(s.callers[d]) ==>
      s.callers[c].id != s.callers[d].id
    ensures s.inflight == InProgressCount(s.callers)
    ensures forall c :: 0 <= c < |s.callers| && (s.callers[c].Leaving? || s.callers[c].Returned?) ==>
      s.callers[c].id !in s.pending
  {
    ReachableInv(s);
    assert forall id <- s.pending :: CleanEntry(s, id, s.pending[id]);
  }

  /** A call that returns an answer or an RPC error got the one response that was ever put on its
      channel, and that response carries the call's own id. */
  lemma OwnResponseOnly(s: State, c: nat)
    requires Reachable(s) && c < |s.callers| && s.callers[c].Returned? && IsReply(s.callers[c].r)
    ensures s.callers[c].r.resp.id == s.callers[c].id
    ensures c in s.delivered && s.delivered[c] == s.callers[c].r.resp && c < |s.chans| && s.chans[c] == []
  {
    ReachableInv(s);
    assert ResultOk(s, c);
  }

  /** Nothing is put twice on a channel: a delivery step always serves a caller not served before. */
  lemma DeliveredOnce(s: State, e: Event)
    requires Reachable(s) && Enabled(s, e) && (e.Deliver? || e.Drain?)
    ensures (if e.Deliver? then s.reader.to else s.pending[e.id]) !in s.delivered
  {
    ReachableInv(s);
    if e.Drain? { assert CleanEntry(s, e.id, s.pending[e.id]); }
  }

  /** The reader never blocks on a channel, in particular not while draining with the lock held: every
      channel it may send on is empty. */
  lemma ReaderNeverBlocks(s: State)
    requires Reachable(s)
    ensures s.reader.Delivering? ==> Enabled(s, Deliver)
    ensures s.reader.Draining? ==> forall id <- s.pending :: Enabled(s, Drain(id))
    ensures s.reader.Draining? && s.pending == map[] ==> Enabled(s, FinishDrain)
    ensures forall id <- s.pending :: s.pending[id] < |s.chans| && s.chans[s.pending[id]] == []
  {
    ReachableInv(s);
    forall id <- s.pending ensures CleanEntry(s, id, s.pending[id]) { }
  }

  /** Whoever holds the lock can move, so nobody waits for it forever behind a blocked holder. */
  lemma HolderCanMove(s: State)
    requires Reachable(s) && s.mu.Some?
    ensures exists e :: Enabled(s, e) && match s.mu.value
      case ByCaller(c) => ByACaller(e) && e.c == c
      case ByReader => e.Route? || e.Drain? || e.FinishDrain?
  {
    ReachableInv(s);
    match s.mu.value
    case ByCaller(c) =>
      assert if s.callers[c].Registering? then Enabled(s, Register(c)) else Enabled(s, Remove(c));
    case ByReader =>
      ReaderNeverBlocks(s);
      if s.reader.Looking? {
        assert Enabled(s, Route);
      } else if id :| id in s.pending {
        assert Enabled(s, Drain(id));
      } else {
        assert forall id :: id !in s.pending;
        assert Enabled(s, FinishDrain);
      }
  }

  /** A waiting call is never forgotten: it is still registered, or its response is in its channel, or
      the reader is about to put it there. */
  lemma NoLostWakeup(s: State, c: nat)
    requires Reachable(s) && c < |s.callers| && s.callers[c].Waiting?
    ensures || (s.callers[c].id in s.pending && s.pending[s.callers[c].id] == c)
            || Enabled(s, Receive(c))
            || (s.reader.Delivering? && s.reader.to == c && Enabled(s, Deliver))
  {
    ReachableInv(s);
    ReaderNeverBlocks(s);
    if s.callers[c].id in s.pending {
      var d := s.pending[s.callers[c].id];
      assert CleanEntry(s, s.callers[c].id, d);
    }
  }

  /** Once the error drain is over, every call registered when it took the lock has its response: a
      call still waiting can receive it. */
  lemma DrainAnswersAll(s: State, c: nat)
    requires Reachable(s) && s.reader.Stopped? && c in s.drained
    ensures c < |s.callers| && WasRegistered(s.callers[c])
    ensures c in s.delivered && s.delivered[c] == Response(s.callers[c].id, false, true, "scanner error")
    ensures s.callers[c].Waiting? ==> Enabled(s, Receive(c))
  {
    ReachableInv(s);
    if s.callers[c].Waiting? { AnsweredCanReceive(s, c); }
  }

  lemma AnsweredCanReceive(s: State, c: nat)
    requires Inv(s) && c < |s.callers| && s.callers[c].Waiting? && c in s.delivered
    ensures Enabled(s, Receive(c))
  {
    assert forall id <- s.pending :: CleanEntry(s, id, s.pending[id]);
  }

  // ---- after the reader has stopped ----

  /** A reader that has stopped stays so, and nothing is put on any channel any more. */
  lemma StoppedForGood(s: State, e: Event)
    requires s.reader.Stopped? && Enabled(s, e)
    ensures StepOf(s, e).reader.Stopped? && StepOf(s, e).delivered == s.delivered
  {
  }

  lemma {:induction false} NothingDelivered(s: State, run: seq<Event>)
    requires Inv(s) && s.reader.Stopped? && Feasible(s, run)
    ensures Inv(Exec(s, run)) && Exec(s, run).reader.Stopped? && Exec(s, run).delivered == s.delivered
    decreases |run|
  {
    if run != [] {
      StoppedForGood(s, run[0]);
      StepInv(s, run[0]);
      NothingDelivered(StepOf(s, run[0]), run[1..]);
    }
  }

  /** Whatever happens next, a call without a response when the reader stopped, at whatever point it is and
      even if it has not begun, never returns one. */
  lemma NoAnswerAfterStop(s: State, c: nat, run: seq<Event>)
    requires Reachable(s) && s.reader.Stopped? && c !in s.delivered && Feasible(s, run)
    ensures var s' := Exec(s, run); c < |s'.callers| && s'.callers[c].Returned? ==> !IsReply(s'.callers[c].r)
  {
    ReachableInv(s);
    NothingDelivered(s, run);
    var s' := Exec(s, run);
    if c < |s'.callers| && s'.callers[c].Returned? { assert ResultOk(s', c); }
  }

  lemma WaitsOn(s: State, c: nat, e: Event)
    requires Inv(s) && s.reader.Stopped? && c !in s.delivered && Enabled(s, e) && e != Cancel(c)
    requires c < |s.callers| && s.callers[c].Waiting?
    ensures c < |StepOf(s, e).callers| && StepOf(s, e).callers[c] == s.callers[c]
  {
    assert s.chans[c] == [];
  }

  lemma {:induction false} WaitsForever(s: State, c: nat, run: seq<Event>)
    requires Inv(s) && s.reader.Stopped? && c !in s.delivered && Feasible(s, run) && Cancel(c) !in run
    requires c < |s.callers| && s.callers[c].Waiting?
    ensures c < |Exec(s, run).callers| && Exec(s, run).callers[c] == s.callers[c]
    decreases |run|
  {
    if run != [] {
      WaitsOn(s, c, run[0]);
      StoppedForGood(s, run[0]);
      StepInv(s, run[0]);
      WaitsForever(StepOf(s, run[0]), c, run[1..]);
    }
  }

  /** `run` brings the call back, and not because its context was cancelled. */
  ghost predicate BringsBack(s: State, c: nat, run: seq<Event>)
  {
    Feasible(s, run) && Cancel(c) !in run && c < |Exec(s, run).callers| && Exec(s, run).callers[c].Returned?
  }

  /** Once the reader has stopped, a waiting call can return without being cancelled exactly when its response
      had been delivered. */
  lemma ReturnsAfterStopIff(s: State, c: nat)
    requires Reachable(s) && s.reader.Stopped? && c < |s.callers| && s.callers[c].Waiting?
    ensures (exists run :: BringsBack(s, c, run)) <==> c in s.delivered
  {
    ReachableInv(s);
    if c in s.delivered {
      AnsweredCanReceive(s, c);
      var s1 := StepOf(s, Receive(c));
      var s2 := StepOf(s1, Leave(c));
      RunOn(s1, Leave(c), s2, [], s2);
      RunOn(s, Receive(c), s1, [Leave(c)], s2);
      assert BringsBack(s, c, [Receive(c)] + [Leave(c)]);
    } else if run :| BringsBack(s, c, run) {
      WaitsForever(s, c, run);
    }
  }

  lemma RunOn(s: State, e: Event, s1: State, rest: seq<Event>, s2: State)
    requires Enabled(s, e) && StepOf(s, e) == s1 && Feasible(s1, rest) && Exec(s1, rest) == s2
    ensures Feasible(s, [e] + rest) && Exec(s, [e] + rest) == s2
  {
    assert ([e] + rest)[1..] == rest;
  }

  /** A connection whose stream fails and is drained, and a call on it. */
  function FailedStream(): seq<Event> { [EndOfStream(true)] + ([LockToDrain] + ([FinishDrain] + LateCall())) }

  function LateCall(): seq<Event>
  {
    [Enter(0)] + ([Draw(0)] + ([LockToRegister(0)] + ([Register(0)] + ([Send(0, true)] + []))))
  }

  /** Nothing is pending on a connection with one caller, and the reader is at `reader`. */
  function Quiet(mu: Option<Holder>, reader: Reader): State { Init(1).(mu := mu, reader := reader) }

  /** The state in which a first call is at `pc` after the reader has stopped. */
  function Late(reqID: int, mu: Option<Holder>, pending: map<int, nat>, pc: Caller): State
  {
    State(reqID, 1, mu, pending, [[]], [pc], Stopped, map[], {})
  }

  lemma LateCallRuns()
    ensures Feasible(Quiet(None, Stopped), LateCall())
    ensures Exec(Quiet(None, Stopped), LateCall()) == Late(1, None, map[1 := 0], Waiting(1))
  {
    var end, mu := Late(1, None, map[1 := 0], Waiting(1)), Some(ByCaller(0));
    var sent := [Send(0, true)] + [];
    RunOn(Late(1, None, map[1 := 0], Registered(1)), Send(0, true), end, [], end);
    RunOn(Late(1, mu, map[], Registering(1)), Register(0), Late(1, None, map[1 := 0], Registered(1)), sent, end);
    var registered := [Register(0)] + sent;
    RunOn(Late(1, None, map[], Numbered(1)), LockToRegister(0), Late(1, mu, map[], Registering(1)), registered, end);
    var locked := [LockToRegister(0)] + registered;
    RunOn(Late(0, None, map[], Entered), Draw(0), Late(1, None, map[], Numbered(1)), locked, end);
    assert Init(1).chans == [[]] && Init(1).callers == [Idle];
    RunOn(Quiet(None, Stopped), Enter(0), Late(0, None, map[], Entered), [Draw(0)] + locked, end);
  }

  /** A call that begins after the drain is sent and registered, and waits without a response. */
  lemma LateCallWaits()
    ensures Feasible(Init(1), FailedStream())
    ensures var s := Exec(Init(1), FailedStream());
      Reachable(s) && s.reader.Stopped? && |s.callers| == 1 && s.callers[0] == Waiting(1) && 0 !in s.delivered
  {
    LateCallRuns();
    var end, call := Late(1, None, map[1 := 0], Waiting(1)), LateCall();
    var held := Quiet(Some(ByReader), Draining);
    assert Enrolled(Quiet(None, ErrorSeen)) == {};
    RunOn(held, FinishDrain, Quiet(None, Stopped), call, end);
    RunOn(Quiet(None, ErrorSeen), LockToDrain, held, [FinishDrain] + call, end);
    RunOn(Init(1), EndOfStream(true), Quiet(None, ErrorSeen), [LockToDrain] + ([FinishDrain] + call), end);
  }
}
