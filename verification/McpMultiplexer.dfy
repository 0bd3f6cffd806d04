/** One MCP server connection: any number of concurrent `sendRequest` calls and the single reader
    goroutine, as a transition system. Each event is one atomic action of the source; who moves next,
    what the server sends, whether sends fail and when contexts are cancelled are arbitrary. */
module McpMultiplexer {
  import opened Wrappers

  /** A frame from the server. Requests and notifications carry a method. */
  datatype Response = Response(id: int, hasMethod: bool, isError: bool, payload: string)

  datatype Result = Answer(resp: Response) | RpcError(resp: Response) | MarshalFailed | SendFailed | Cancelled

  /** Program points of `sendRequest`. */
  datatype Caller =
    | Idle
    | Entered                        // inflight incremented
    | Numbered(id: int)              // request id drawn
    | Registering(id: int)           // holds mu, about to insert into pending
    | Registered(id: int)            // mu released, about to send
    | Waiting(id: int)               // in the select
    | GivingUp(id: int, why: Result) // send failed or context done: wants mu
    | Removing(id: int, why: Result) // holds mu, about to delete from pending
    | Leaving(id: int, r: Result)    // about to decrement inflight
    | Returned(id: int, r: Result)

  /** Program points of `readResponses`. */
  datatype Reader =
    | Receiving
    | Routing(resp: Response)             // wants mu
    | Looking(resp: Response)             // holds mu
    | Delivering(resp: Response, to: nat) // mu released, about to send on the channel
    | ErrorSeen                           // transport error: wants mu
    | Draining                            // holds mu
    | Stopped

  datatype Holder = ByCaller(c: nat) | ByReader

  /** `pending` maps a request id to the caller whose channel waits; `chans` are the callers' channels,
      of capacity 1. `delivered` records what was put on each channel, and `drained` the callers that
      were registered when the error drain took the lock. */
  datatype State = State(
    reqID: int, inflight: int, mu: Option<Holder>, pending: map<int, nat>, chans: seq<seq<Response>>,
    callers: seq<Caller>, reader: Reader, delivered: map<nat, Response>, drained: set<nat>)

  const CAPACITY := 1

  function Init(n: nat): State
  {
    State(0, 0, None, map[], seq(n, _ => []), seq(n, _ => Idle), Receiving, map[], {})
  }

  datatype Event =
    | Enter(c: nat) | Draw(c: nat) | FailMarshal(c: nat) | LockToRegister(c: nat) | Register(c: nat)
    | Send(c: nat, ok: bool) | Receive(c: nat) | Cancel(c: nat) | LockToRemove(c: nat) | Remove(c: nat) | Leave(c: nat)
    | Frame(resp: Response) | EndOfStream(failed: bool) | LockToRoute | Route | Deliver
    | LockToDrain | Drain(id: int) | FinishDrain

  /** The reader routes only frames with an id and no method. */
  predicate Routed(r: Response) { r.id != 0 && !r.hasMethod }

  predicate IsCaller(s: State, c: nat) { c < |s.callers| && c < |s.chans| }

  predicate Enabled(s: State, e: Event)
  {
    match e
    case Enter(c) => IsCaller(s, c) && s.callers[c].Idle?
    case Draw(c) => IsCaller(s, c) && s.callers[c].Entered?
    case FailMarshal(c) => IsCaller(s, c) && s.callers[c].Numbered?
    case LockToRegister(c) => IsCaller(s, c) && s.callers[c].Numbered? && s.mu.None?
    case Register(c) => IsCaller(s, c) && s.callers[c].Registering?
    case Send(c, _) => IsCaller(s, c) && s.callers[c].Registered?
    case Receive(c) => IsCaller(s, c) && s.callers[c].Waiting? && s.chans[c] != []
    case Cancel(c) => IsCaller(s, c) && s.callers[c].Waiting?
    case LockToRemove(c) => IsCaller(s, c) && s.callers[c].GivingUp? && s.mu.None?
    case Remove(c) => IsCaller(s, c) && s.callers[c].Removing?
    case Leave(c) => IsCaller(s, c) && s.callers[c].Leaving?
    case Frame(_) => s.reader.Receiving?
    case EndOfStream(_) => s.reader.Receiving?
    case LockToRoute => s.reader.Routing? && s.mu.None?
    case Route => s.reader.Looking?
    case Deliver => s.reader.Delivering? && s.reader.to < |s.chans| && |s.chans[s.reader.to]| < CAPACITY
    case LockToDrain => s.reader.ErrorSeen? && s.mu.None?
    case Drain(id) =>
      && s.reader.Draining? && id in s.pending
      && s.pending[id] < |s.chans| && |s.chans[s.pending[id]]| < CAPACITY
    case FinishDrain => s.reader.Draining? && s.pending == map[]
  }

  /** The error response made for a request that is still pending when the transport fails. */
  function ScannerError(id: int): Response { Response(id, false, true, "scanner error") }

  function Put(s: State, c: nat, r: Response): State
    requires c < |s.chans|
  {
    s.(chans := s.chans[c := s.chans[c] + [r]], delivered := s.delivered[c := r])
  }

  function Move(s: State, c: nat, pc: Caller): State
    requires c < |s.callers|
  {
    s.(callers := s.callers[c := pc])
  }

  function StepOf(s: State, e: Event): State
    requires Enabled(s, e)
  {
    match e
    case Enter(c) => Move(s, c, Entered).(inflight := s.inflight + 1)
    case Draw(c) => Move(s, c, Numbered(s.reqID + 1)).(reqID := s.reqID + 1)
    case FailMarshal(c) => Move(s, c, Leaving(s.callers[c].id, MarshalFailed))
    case LockToRegister(c) => Move(s, c, Registering(s.callers[c].id)).(mu := Some(ByCaller(c)))
    case Register(c) =>
      Move(s, c, Registered(s.callers[c].id)).(pending := s.pending[s.callers[c].id := c], mu := None)
    case Send(c, ok) =>
      Move(s, c, if ok then Waiting(s.callers[c].id) else GivingUp(s.callers[c].id, SendFailed))
    case Receive(c) =>
      var r := s.chans[c][0];
      var result := if r.isError then RpcError(r) else Answer(r);
      Move(s, c, Leaving(s.callers[c].id, result)).(chans := s.chans[c := s.chans[c][1..]])
    case Cancel(c) => Move(s, c, GivingUp(s.callers[c].id, Cancelled))
    case LockToRemove(c) => Move(s, c, Removing(s.callers[c].id, s.callers[c].why)).(mu := Some(ByCaller(c)))
    case Remove(c) =>
      Move(s, c, Leaving(s.callers[c].id, s.callers[c].why)).(pending := s.pending - {s.callers[c].id}, mu := None)
    case Leave(c) => Move(s, c, Returned(s.callers[c].id, s.callers[c].r)).(inflight := s.inflight - 1)
    case Frame(r) => if Routed(r) then s.(reader := Routing(r)) else s
    case EndOfStream(failed) => s.(reader := if failed then ErrorSeen else Stopped)
    case LockToRoute => s.(reader := Looking(s.reader.resp), mu := Some(ByReader))
    case Route =>
      var r := s.reader.resp;
      if r.id in s.pending
      then s.(reader := Delivering(r, s.pending[r.id]), pending := s.pending - {r.id}, mu := None)
      else s.(reader := Receiving, mu := None)
    case Deliver => Put(s, s.reader.to, s.reader.resp).(reader := Receiving)
    case LockToDrain => s.(reader := Draining, mu := Some(ByReader), drained := Enrolled(s))
    case Drain(id) => Put(s, s.pending[id], ScannerError(id)).(pending := s.pending - {id})
    case FinishDrain => s.(reader := Stopped, mu := None)
  }

  /** The callers registered now. */
  function Enrolled(s: State): set<nat> { set id | id in s.pending :: s.pending[id] }

  // ---- the invariant ----

  predicate HasId(pc: Caller) { !pc.Idle? && !pc.Entered? }

  /** Between entering and the deferred decrement. */
  predicate InProgress(pc: Caller) { !pc.Idle? && !pc.Returned? }

  /** Registered and not yet past its own delete. */
  predicate MayBePending(pc: Caller) { pc.Registered? || pc.Waiting? || pc.GivingUp? || pc.Removing? }

  function InProgressCount(callers: seq<Caller>): nat
  {
    if callers == [] then 0
    else InProgressCount(callers[..|callers| - 1]) + if InProgress(callers[|callers| - 1]) then 1 else 0
  }

  /** Has been registered at some time. */
  predicate WasRegistered(pc: Caller) { MayBePending(pc) || pc.Leaving? || pc.Returned? }

  ghost predicate IdsOk(s: State)
  {
    && 0 <= s.reqID
    && (forall c :: 0 <= c < |s.callers| && HasId(s.callers[c]) ==> 1 <= s.callers[c].id <= s.reqID)
    && (forall c, d :: 0 <= c < d < |s.callers| && HasId(s.callers[c]) && HasId(s.callers[d]) ==>
      s.callers[c].id != s.callers[d].id)
  }

  ghost predicate LockOk(s: State)
  {
    && (forall c :: 0 <= c < |s.callers| ==>
      (s.callers[c].Registering? || s.callers[c].Removing? <==> s.mu == Some(ByCaller(c))))
    && (s.mu.Some? && s.mu.value.ByCaller? ==> s.mu.value.c < |s.callers|)
    && (s.reader.Looking? || s.reader.Draining? <==> s.mu == Some(ByReader))
  }

  /** Caller `c` is registered under its own id, and nothing was ever put on its channel. */
  ghost predicate CleanEntry(s: State, id: int, c: nat)
  {
    && IsCaller(s, c) && MayBePending(s.callers[c]) && s.callers[c].id == id
    && s.chans[c] == [] && c !in s.delivered && !(s.reader.Delivering? && s.reader.to == c)
  }

  ghost predicate PendingOk(s: State)
  {
    forall id <- s.pending :: CleanEntry(s, id, s.pending[id])
  }

  ghost predicate DeliveringOk(s: State)
  {
    s.reader.Delivering? ==>
      && IsCaller(s, s.reader.to) && WasRegistered(s.callers[s.reader.to])
      && s.callers[s.reader.to].id == s.reader.resp.id
      && s.chans[s.reader.to] == [] && s.reader.to !in s.delivered && s.reader.resp.id !in s.pending
  }

  /** What has been put on a channel came once, for the caller's own id; it is still there or was taken. */
  ghost predicate ChannelsOk(s: State)
  {
    && |s.chans| == |s.callers|
    && (forall c <- s.delivered :: IsCaller(s, c) && WasRegistered(s.callers[c]) && s.delivered[c].id == s.callers[c].id
          && (s.chans[c] == [] || s.chans[c] == [s.delivered[c]]))
    && (forall c :: 0 <= c < |s.chans| && c !in s.delivered ==> s.chans[c] == [])
  }

  predicate IsReply(r: Result) { r.Answer? || r.RpcError? }

  ghost predicate ResultOk(s: State, c: nat)
    requires c < |s.callers|
  {
    && (s.callers[c].Leaving? || s.callers[c].Returned? ==> IsReply(s.callers[c].r) ==>
         c in s.delivered && c < |s.chans| && s.chans[c] == []
         && s.callers[c].r.resp == s.delivered[c] && s.callers[c].r.RpcError? == s.delivered[c].isError)
    && (s.callers[c].GivingUp? || s.callers[c].Removing? ==> !IsReply(s.callers[c].why))
  }

  ghost predicate ResultsOk(s: State)
  {
    forall c :: 0 <= c < |s.callers| ==> ResultOk(s, c)
  }

  /** A waiting call is still registered, or its answer is in its channel or about to be. */
  ghost predicate NobodyForgotten(s: State)
  {
    forall c :: 0 <= c < |s.callers| == |s.chans| && (s.callers[c].Registered? || s.callers[c].Waiting?) ==>
      || s.callers[c].id in s.pending
      || s.chans[c] != []
      || (s.reader.Delivering? && s.reader.to == c)
  }

  /** The caller has been told of the transport error. */
  predicate Told(s: State, c: nat)
  {
    c in s.delivered && s.delivered[c] == Response(s.delivered[c].id, false, true, "scanner error")
  }

  ghost predicate DrainOk(s: State)
  {
    && (s.reader.Draining? ==> forall c <- s.drained :: Told(s, c) || c in Enrolled(s))
    && (s.reader.Stopped? ==> forall c <- s.drained :: Told(s, c))
    && (!s.reader.Draining? && !s.reader.Stopped? ==> s.drained == {})
  }

  ghost predicate Inv(s: State)
  {
    && IdsOk(s) && LockOk(s) && PendingOk(s) && DeliveringOk(s) && ChannelsOk(s) && ResultsOk(s)
    && NobodyForgotten(s) && DrainOk(s) && s.inflight == InProgressCount(s.callers)
  }

  lemma {:induction false} CountIdle(n: nat)
    ensures InProgressCount(seq(n, _ => Idle)) == 0
  {
    if n > 0 {
      assert seq(n, _ => Idle)[..n - 1] == seq(n - 1, _ => Idle);
      CountIdle(n - 1);
    }
  }

  lemma {:induction false} CountMove(callers: seq<Caller>, c: nat, pc: Caller)
    requires c < |callers|
    ensures InProgressCount(callers[c := pc]) == InProgressCount(callers)
      - (if InProgress(callers[c]) then 1 else 0) + (if InProgress(pc) then 1 else 0)
  {
    var n := |callers| - 1;
    if c == n {
      assert callers[c := pc][..n] == callers[..n];
    } else {
      assert callers[c := pc][..n] == callers[..n][c := pc];
      CountMove(callers[..n], c, pc);
    }
  }

  lemma InitInv(n: nat)
    ensures Inv(Init(n))
  {
    CountIdle(n);
  }

  predicate ByACaller(e: Event)
  {
    e.Enter? || e.Draw? || e.FailMarshal? || e.LockToRegister? || e.Register? || e.Send? || e.Receive? || e.Cancel?
    || e.LockToRemove? || e.Remove? || e.Leave?
  }

  // Each step is either one caller's, which leaves the other callers and the reader alone, or the
  // reader's, which leaves the callers alone.

  /** How a caller's step changes that caller. */
  lemma CallerStep(s: State, e: Event)
    requires Inv(s) && Enabled(s, e) && ByACaller(e)
    ensures var s', c := StepOf(s, e), e.c;
      && s'.callers == s.callers[c := s'.callers[c]] && s'.reader == s.reader && s'.drained == s.drained
      && s'.delivered == s.delivered && |s'.chans| == |s.chans|
      && (forall d :: 0 <= d < |s.chans| && d != c ==> s'.chans[d] == s.chans[d])
      && (e.Draw? ==> s'.reqID == s.reqID + 1 && s'.callers[c] == Numbered(s.reqID + 1))
      && (!e.Draw? ==>
        s'.reqID == s.reqID && (HasId(s'.callers[c]) ==> HasId(s.callers[c]) && s'.callers[c].id == s.callers[c].id))
      && (WasRegistered(s.callers[c]) ==> WasRegistered(s'.callers[c]))
  {
  }

  lemma StepIds(s: State, e: Event)
    requires Inv(s) && Enabled(s, e)
    ensures IdsOk(StepOf(s, e))
  {
    if ByACaller(e) { CallerStep(s, e); }
  }

  lemma CallerLock(s: State, e: Event)
    requires Inv(s) && Enabled(s, e) && ByACaller(e)
    ensures LockOk(StepOf(s, e))
  {
    var s' := StepOf(s, e);
    assert s.callers[e.c].Registering? || s.callers[e.c].Removing? <==> s.mu == Some(ByCaller(e.c));
    forall d | 0 <= d < |s'.callers|
      ensures s'.callers[d].Registering? || s'.callers[d].Removing? <==> s'.mu == Some(ByCaller(d))
    {
      assert s.callers[d].Registering? || s.callers[d].Removing? <==> s.mu == Some(ByCaller(d));
    }
  }

  lemma ReaderLock(s: State, e: Event)
    requires Inv(s) && Enabled(s, e) && !ByACaller(e)
    ensures LockOk(StepOf(s, e))
  {
  }

  lemma CallerPending(s: State, e: Event)
    requires Inv(s) && Enabled(s, e) && ByACaller(e)
    ensures PendingOk(StepOf(s, e))
  {
    var s' := StepOf(s, e);
    CallerStep(s, e);
    forall id <- s'.pending ensures CleanEntry(s', id, s'.pending[id]) {
      if id in s.pending { assert CleanEntry(s, id, s.pending[id]); }
    }
  }

  lemma CallerDelivering(s: State, e: Event)
    requires Inv(s) && Enabled(s, e) && ByACaller(e)
    ensures DeliveringOk(StepOf(s, e))
  {
    CallerStep(s, e);
  }

  lemma ReaderPending(s: State, e: Event)
    requires Inv(s) && Enabled(s, e) && !ByACaller(e)
    ensures PendingOk(StepOf(s, e)) && DeliveringOk(StepOf(s, e))
  {
    var s' := StepOf(s, e);
    if e.Drain? { assert CleanEntry(s, e.id, s.pending[e.id]); }
    if e.Route? && s.reader.resp.id in s.pending {
      assert CleanEntry(s, s.reader.resp.id, s.pending[s.reader.resp.id]);
    }
    forall id <- s'.pending ensures CleanEntry(s', id, s'.pending[id]) {
      assert CleanEntry(s, id, s.pending[id]);
    }
  }

  lemma CallerChannels(s: State, e: Event)
    requires Inv(s) && Enabled(s, e) && ByACaller(e)
    ensures ChannelsOk(StepOf(s, e))
  {
    CallerStep(s, e);
  }

  lemma CallerResults(s: State, e: Event)
    requires Inv(s) && Enabled(s, e) && ByACaller(e)
    ensures ResultsOk(StepOf(s, e))
  {
    var s' := StepOf(s, e);
    CallerStep(s, e);
    assert ResultOk(s, e.c);
    forall c | 0 <= c < |s'.callers| ensures ResultOk(s', c) {
      if c != e.c { assert ResultOk(s, c); }
    }
  }

  lemma ReaderChannels(s: State, e: Event)
    requires Inv(s) && Enabled(s, e) && !ByACaller(e)
    ensures ChannelsOk(StepOf(s, e))
  {
    if e.Drain? { assert CleanEntry(s, e.id, s.pending[e.id]); }
  }

  lemma ReaderResults(s: State, e: Event)
    requires Inv(s) && Enabled(s, e) && !ByACaller(e)
    ensures ResultsOk(StepOf(s, e))
  {
    if e.Drain? { assert CleanEntry(s, e.id, s.pending[e.id]); }
    forall c | 0 <= c < |s.callers| ensures ResultOk(StepOf(s, e), c) { assert ResultOk(s, c); }
  }

  lemma CallerForgotten(s: State, e: Event)
    requires Inv(s) && Enabled(s, e) && ByACaller(e)
    ensures NobodyForgotten(StepOf(s, e))
  {
    CallerStep(s, e);
  }

  lemma CallerDrain(s: State, e: Event)
    requires Inv(s) && Enabled(s, e) && ByACaller(e)
    ensures DrainOk(StepOf(s, e))
  {
    CallerStep(s, e);
    if s.reader.Draining? {
      assert StepOf(s, e).pending == s.pending;
    }
  }

  lemma ReaderRemembers(s: State, e: Event, c: nat)
    requires Inv(s) && Enabled(s, e) && !ByACaller(e)
    requires c < |s.callers| && (s.callers[c].Registered? || s.callers[c].Waiting?)
    ensures var s' := StepOf(s, e);
      && s'.callers == s.callers && |s'.chans| == |s.callers|
      && (s.callers[c].id in s'.pending || s'.chans[c] != [] || (s'.reader.Delivering? && s'.reader.to == c))
  {
    if s.callers[c].id in s.pending { assert CleanEntry(s, s.callers[c].id, s.pending[s.callers[c].id]); }
  }

  lemma ReaderForgotten(s: State, e: Event)
    requires Inv(s) && Enabled(s, e) && !ByACaller(e)
    ensures NobodyForgotten(StepOf(s, e))
  {
    var s' := StepOf(s, e);
    forall c | 0 <= c < |s'.callers| == |s'.chans| && (s'.callers[c].Registered? || s'.callers[c].Waiting?)
      ensures s'.callers[c].id in s'.pending || s'.chans[c] != [] || (s'.reader.Delivering? && s'.reader.to == c)
    {
      ReaderRemembers(s, e, c);
    }
  }

  lemma ReaderDrain(s: State, e: Event)
    requires Inv(s) && Enabled(s, e) && !ByACaller(e)
    ensures DrainOk(StepOf(s, e))
  {
    var s' := StepOf(s, e);
    if s.reader.Draining? {
      forall c <- s'.drained ensures Told(s', c) || c in Enrolled(s') {
        if !Told(s, c) {
          var id :| id in s.pending && s.pending[id] == c;
          assert id in s'.pending || Told(s', c);
        }
      }
    }
  }

  lemma StepCount(s: State, e: Event)
    requires Inv(s) && Enabled(s, e)
    ensures StepOf(s, e).inflight == InProgressCount(StepOf(s, e).callers)
  {
    if ByACaller(e) {
      CallerStep(s, e);
      CountMove(s.callers, e.c, StepOf(s, e).callers[e.c]);
    }
  }

  lemma StepInv(s: State, e: Event)
    requires Inv(s) && Enabled(s, e)
    ensures Inv(StepOf(s, e))
  {
    StepIds(s, e);
    StepCount(s, e);
    if ByACaller(e) {
      CallerLock(s, e); CallerPending(s, e); CallerDelivering(s, e);
      CallerChannels(s, e); CallerResults(s, e); CallerForgotten(s, e); CallerDrain(s, e);
    } else {
      ReaderLock(s, e); ReaderPending(s, e); ReaderChannels(s, e);
      ReaderResults(s, e); ReaderForgotten(s, e); ReaderDrain(s, e);
    }
  }

  // ---- runs ----

  ghost predicate Feasible(s: State, run: seq<Event>)
    decreases |run|
  {
    run == [] || (Enabled(s, run[0]) && Feasible(StepOf(s, run[0]), run[1..]))
  }

  ghost function Exec(s: State, run: seq<Event>): State
    requires Feasible(s, run)
    decreases |run|
  {
    if run == [] then s else Exec(StepOf(s, run[0]), run[1..])
  }

  lemma {:induction false} ExecInv(s: State, run: seq<Event>)
    requires Inv(s) && Feasible(s, run)
    ensures Inv(Exec(s, run))
    decreases |run|
  {
    if run != [] {
      StepInv(s, run[0]);
      ExecInv(StepOf(s, run[0]), run[1..]);
    }
  }

  ghost predicate Reachable(s: State)
  {
    exists n: nat, run :: Feasible(Init(n), run) && Exec(Init(n), run) == s
  }

  lemma ReachableInv(s: State)
    requires Reachable(s)
    ensures Inv(s)
  {
    var n: nat, run :| Feasible(Init(n), run) && Exec(Init(n), run) == s;
    InitInv(n);
    ExecInv(Init(n), run);
  }
}
