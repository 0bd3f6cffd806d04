/** Responses on an MCP connection: which frames are routed, that what is routed arrives, and why calls fail. */
module McpDelivery {
  import opened McpGuarantees
  import opened McpMultiplexer
  import opened Wrappers

  // ---- which frames are routed ----

  /** Exactly the frames with a method or without an id are passed over. */
  lemma PassedOverIff(s: State, r: Response)
    requires Enabled(s, Frame(r))
    ensures StepOf(s, Frame(r)) == s <==> r.hasMethod || r.id == 0
  {
  }

  /** Where a response on a channel came from: the server, or the drain after a transport error. */
  predicate Came(hist: seq<Event>, r: Response)
  {
    || (Frame(r) in hist && !r.hasMethod && r.id != 0)
    || (EndOfStream(true) in hist && r == Response(r.id, false, true, "scanner error"))
  }

  predicate InHand(reader: Reader, r: Response)
  {
    (reader.Routing? || reader.Looking? || reader.Delivering?) && reader.resp == r
  }

  ghost predicate Origins(hist: seq<Event>, s: State)
  {
    && (forall c <- s.delivered :: Came(hist, s.delivered[c]))
    && (forall r :: InHand(s.reader, r) ==> Frame(r) in hist && !r.hasMethod && r.id != 0)
    && (s.reader.ErrorSeen? || s.reader.Draining? ==> EndOfStream(true) in hist)
  }

  lemma OriginsStep(hist: seq<Event>, s: State, e: Event)
    requires Origins(hist, s) && Enabled(s, e)
    ensures Origins(hist + [e], StepOf(s, e))
  {
    var s' := StepOf(s, e);
    assert forall x <- hist :: x in hist + [e];
    assert e in hist + [e];
    if e.Deliver? || e.Route? || e.LockToRoute? { assert InHand(s.reader, s.reader.resp); }
    forall c <- s'.delivered ensures Came(hist + [e], s'.delivered[c]) {
      if c in s.delivered && s'.delivered[c] == s.delivered[c] { assert Came(hist, s.delivered[c]); }
    }
  }

  lemma {:induction false} OriginsAlong(hist: seq<Event>, s: State, run: seq<Event>)
    requires Origins(hist, s) && Feasible(s, run)
    ensures Origins(hist + run, Exec(s, run))
    decreases |run|
  {
    if run == [] {
      assert hist + run == hist;
    } else {
      OriginsStep(hist, s, run[0]);
      OriginsAlong(hist + [run[0]], StepOf(s, run[0]), run[1..]);
      assert hist + [run[0]] + run[1..] == hist + run;
    }
  }

  /** No response is invented or taken from a request: what is put on a channel is a frame that the server sent,
      with an id and no method, or the error response of a drain. */
  lemma NothingInvented(n: nat, run: seq<Event>, c: nat)
    requires Feasible(Init(n), run) && c in Exec(Init(n), run).delivered
    ensures Came(run, Exec(Init(n), run).delivered[c])
  {
    OriginsAlong([], Init(n), run);
    assert [] + run == run;
  }

  // ---- what is routed arrives ----

  /** `r` has been routed to caller `c`: it is on its way or has been put on the channel. */
  predicate Carried(s: State, r: Response, c: nat)
  {
    || ((s.reader == Routing(r) || s.reader == Looking(r)) && r.id in s.pending && s.pending[r.id] == c)
    || s.reader == Delivering(r, c)
    || (c in s.delivered && s.delivered[c] == r)
  }

  /** The call has not begun to deregister itself. */
  predicate Staying(s: State, c: nat)
  {
    c < |s.callers| && !s.callers[c].Removing?
  }

  lemma OtherIds(s: State, id: int, d: nat)
    requires Inv(s) && id in s.pending && d < |s.callers| && d != s.pending[id] && HasId(s.callers[d])
    ensures s.callers[d].id != id
  {
    assert CleanEntry(s, id, s.pending[id]);
  }

  lemma CarriedByCaller(s: State, r: Response, c: nat, e: Event)
    requires Inv(s) && Carried(s, r, c) && Staying(s, c) && Enabled(s, e) && ByACaller(e) && e != LockToRemove(c)
    ensures Carried(StepOf(s, e), r, c) && Staying(StepOf(s, e), c)
  {
    CallerStep(s, e);
    if (e.Register? || e.Remove?) && r.id in s.pending && s.pending[r.id] == c {
      assert CleanEntry(s, r.id, c);
      if e.c != c { OtherIds(s, r.id, e.c); }
    }
  }

  lemma CarriedByReader(s: State, r: Response, c: nat, e: Event)
    requires Inv(s) && Carried(s, r, c) && Staying(s, c) && Enabled(s, e) && !ByACaller(e)
    ensures Carried(StepOf(s, e), r, c) && Staying(StepOf(s, e), c)
  {
    if e.Drain? { assert CleanEntry(s, e.id, s.pending[e.id]); }
  }

  lemma CarriedStep(s: State, r: Response, c: nat, e: Event)
    requires Inv(s) && Carried(s, r, c) && Staying(s, c) && Enabled(s, e) && e != LockToRemove(c)
    ensures Carried(StepOf(s, e), r, c) && Staying(StepOf(s, e), c)
  {
    if ByACaller(e) { CarriedByCaller(s, r, c, e); } else { CarriedByReader(s, r, c, e); }
  }

  lemma {:induction false} CarriedAlong(s: State, r: Response, c: nat, run: seq<Event>)
    requires Inv(s) && Carried(s, r, c) && Staying(s, c) && Feasible(s, run) && LockToRemove(c) !in run
    ensures Carried(Exec(s, run), r, c)
    decreases |run|
  {
    if run != [] {
      CarriedStep(s, r, c, run[0]);
      StepInv(s, run[0]);
      CarriedAlong(StepOf(s, run[0]), r, c, run[1..]);
    }
  }

  /** A response to a registered call. */
  predicate Answers(s: State, r: Response)
  {
    s.reader.Receiving? && r.id in s.pending && r.id != 0 && !r.hasMethod
  }

  /** Whatever happens after the response has come in, it is on its way to its own call or has reached it, unless
      the call deregisters itself. */
  lemma NeverDropped(s: State, r: Response, run: seq<Event>)
    requires Reachable(s) && Answers(s, r) && Feasible(s, run) && run != [] && run[0] == Frame(r)
    requires Staying(s, s.pending[r.id]) && LockToRemove(s.pending[r.id]) !in run
    ensures Carried(Exec(s, run), r, s.pending[r.id])
  {
    ReachableInv(s);
    StepInv(s, run[0]);
    CarriedAlong(StepOf(s, run[0]), r, s.pending[r.id], run[1..]);
  }

  /** The lock can be freed without the call in question doing anything. */
  lemma FreeTheLock(s: State, id: int, c: nat) returns (run: seq<Event>, s': State)
    requires Inv(s) && !s.reader.Looking? && !s.reader.Draining?
    requires id in s.pending && s.pending[id] == c && Staying(s, c)
    ensures Feasible(s, run) && Exec(s, run) == s' && Cancel(c) !in run && Inv(s')
    ensures s'.mu.None? && s'.reader == s.reader && s'.delivered == s.delivered
    ensures id in s'.pending && s'.pending[id] == c && s'.callers[c] == s.callers[c]
  {
    assert CleanEntry(s, id, c);
    if s.mu.None? {
      run, s' := [], s;
    } else {
      var d := s.mu.value.c;
      assert s.callers[d].Registering? || s.callers[d].Removing? <==> s.mu == Some(ByCaller(d));
      OtherIds(s, id, d);
      var e := if s.callers[d].Registering? then Register(d) else Remove(d);
      s' := StepOf(s, e);
      run := [e] + [];
      RunOn(s, e, s', [], s');
      StepInv(s, e);
    }
  }

  /** With the lock free, the reader hands the response over. */
  lemma HandOver(s: State, r: Response, c: nat) returns (run: seq<Event>, s': State)
    requires Inv(s) && s.reader == Routing(r) && s.mu.None? && r.id in s.pending && s.pending[r.id] == c
    ensures Feasible(s, run) && Exec(s, run) == s' && Cancel(c) !in run
    ensures s'.delivered == s.delivered[c := r] && c < |s'.chans| && s'.chans[c] == [r]
    ensures s'.callers == s.callers && s'.reader.Receiving?
  {
    assert CleanEntry(s, r.id, c);
    var s1 := StepOf(s, LockToRoute);
    var s2 := StepOf(s1, Route);
    s' := StepOf(s2, Deliver);
    RunOn(s2, Deliver, s', [], s');
    RunOn(s1, Route, s2, [Deliver] + [], s');
    RunOn(s, LockToRoute, s1, [Route] + ([Deliver] + []), s');
    run := [LockToRoute] + ([Route] + ([Deliver] + []));
  }

  lemma RunFirst(s: State, run: seq<Event>) returns (t: State)
    requires run != [] && Feasible(s, run)
    ensures Enabled(s, run[0]) && StepOf(s, run[0]) == t && Feasible(t, run[1..]) && Exec(t, run[1..]) == Exec(s, run)
  {
    t := StepOf(s, run[0]);
  }

  lemma Uncons(a: seq<Event>, b: seq<Event>)
    requires a != []
    ensures a + b == [a[0]] + (a[1..] + b)
  {
  }

  lemma {:induction false} RunBoth(s: State, a: seq<Event>, s1: State, b: seq<Event>, s2: State)
    requires Feasible(s, a) && Exec(s, a) == s1 && Feasible(s1, b) && Exec(s1, b) == s2
    ensures Feasible(s, a + b) && Exec(s, a + b) == s2
    decreases |a|
  {
    if a == [] {
      assert a + b == b;
    } else {
      var t := RunFirst(s, a);
      RunBoth(t, a[1..], s1, b, s2);
      Uncons(a, b);
      RunOn(s, a[0], t, a[1..] + b, s2);
    }
  }

  /** `run` begins with the response, in it the call is not cancelled, and it ends in `s'`. */
  ghost predicate Brings(s: State, r: Response, c: nat, run: seq<Event>, s': State)
  {
    run != [] && run[0] == Frame(r) && Cancel(c) !in run && Feasible(s, run) && Exec(s, run) == s'
  }

  lemma HandedOver(s: State, r: Response, c: nat) returns (run: seq<Event>, s': State)
    requires Inv(s) && s.reader == Routing(r) && r.id in s.pending && s.pending[r.id] == c && Staying(s, c)
    ensures Feasible(s, run) && Exec(s, run) == s' && Cancel(c) !in run && s'.delivered == s.delivered[c := r]
    ensures c < |s'.chans| && s'.chans[c] == [r] && c < |s'.callers| && s'.callers[c] == s.callers[c]
  {
    var freed, s2 := FreeTheLock(s, r.id, c);
    var handed;
    handed, s' := HandOver(s2, r, c);
    RunBoth(s, freed, s2, handed, s');
    run := freed + handed;
  }

  lemma Begins(s: State, r: Response) returns (s1: State)
    requires Inv(s) && Answers(s, r)
    ensures StepOf(s, Frame(r)) == s1 == s.(reader := Routing(r)) && Inv(s1)
  {
    s1 := StepOf(s, Frame(r));
    StepInv(s, Frame(r));
  }

  lemma Arrives(s: State, r: Response, c: nat) returns (run: seq<Event>, s': State)
    requires Inv(s) && Answers(s, r) && s.pending[r.id] == c && Staying(s, c)
    ensures Brings(s, r, c, run, s') && s'.delivered == s.delivered[c := r]
    ensures c < |s'.chans| && s'.chans[c] == [r] && c < |s'.callers| && s'.callers[c] == s.callers[c]
  {
    var s1 := Begins(s, r);
    var rest;
    rest, s' := HandedOver(s1, r, c);
    RunOn(s, Frame(r), s1, rest, s');
    run := [Frame(r)] + rest;
  }

  /** A call that has begun to deregister itself, or has: it is handed nothing any more. */
  ghost predicate Gone(s: State, c: nat)
  {
    && Inv(s) && c < |s.callers| && c !in s.delivered && !(s.reader.Delivering? && s.reader.to == c)
    && (s.callers[c].Removing? || s.callers[c].Leaving? || s.callers[c].Returned?)
  }

  lemma GoneByCaller(s: State, c: nat, e: Event)
    requires Gone(s, c) && Enabled(s, e) && ByACaller(e)
    ensures Gone(StepOf(s, e), c)
  {
    StepInv(s, e);
    CallerStep(s, e);
  }

  lemma NotPending(s: State, c: nat, id: int)
    requires Gone(s, c) && id in s.pending && s.pending[id] == c
    ensures s.mu == Some(ByCaller(c))
  {
    assert CleanEntry(s, id, c);
    assert s.callers[c].Registering? || s.callers[c].Removing? <==> s.mu == Some(ByCaller(c));
  }

  lemma GoneByReader(s: State, c: nat, e: Event)
    requires Gone(s, c) && Enabled(s, e) && !ByACaller(e)
    ensures Gone(StepOf(s, e), c)
  {
    StepInv(s, e);
    if e.Drain? && s.pending[e.id] == c { NotPending(s, c, e.id); }
    if e.Route? && s.reader.resp.id in s.pending && s.pending[s.reader.resp.id] == c {
      NotPending(s, c, s.reader.resp.id);
    }
  }

  lemma GoneStep(s: State, c: nat, e: Event)
    requires Gone(s, c) && Enabled(s, e)
    ensures Gone(StepOf(s, e), c)
  {
    if ByACaller(e) { GoneByCaller(s, c, e); } else { GoneByReader(s, c, e); }
  }

  lemma {:induction false} GoneAlong(s: State, c: nat, run: seq<Event>)
    requires Gone(s, c) && Feasible(s, run)
    ensures Gone(Exec(s, run), c)
    decreases |run|
  {
    if run != [] {
      GoneStep(s, c, run[0]);
      GoneAlong(StepOf(s, run[0]), c, run[1..]);
    }
  }

  ghost predicate Reaches(s: State, r: Response, c: nat, run: seq<Event>, s': State)
  {
    Brings(s, r, c, run, s') && c in s'.delivered && s'.delivered[c] == r
  }

  /** A response to a registered call can reach it, without the call being cancelled, exactly when the call is not
      already deregistering itself. */
  lemma ResponseReachesIff(s: State, r: Response)
    requires Reachable(s) && Answers(s, r)
    ensures var c := s.pending[r.id]; (exists run, s' :: Reaches(s, r, c, run, s')) <==> Staying(s, c)
  {
    ReachableInv(s);
    var c := s.pending[r.id];
    assert CleanEntry(s, r.id, c);
    if Staying(s, c) {
      var run, s' := Arrives(s, r, c);
      assert Reaches(s, r, c, run, s');
    } else {
      assert Gone(s, c);
      forall run, s' ensures !Reaches(s, r, c, run, s') {
        if Brings(s, r, c, run, s') { GoneAlong(s, c, run); }
      }
    }
  }

  /** What a call returns for a response. */
  function ReplyFor(r: Response): Result { if r.isError then RpcError(r) else Answer(r) }

  ghost predicate Returns(s: State, r: Response, c: nat, run: seq<Event>, s': State)
  {
    Brings(s, r, c, run, s') && c < |s'.callers| && s'.callers[c] == Returned(r.id, ReplyFor(r))
  }

  /** And a waiting call then returns that very response. */
  lemma ResponseReturned(s: State, r: Response)
    requires Reachable(s) && Answers(s, r) && s.pending[r.id] < |s.callers| && s.callers[s.pending[r.id]].Waiting?
    ensures exists run, s' :: Returns(s, r, s.pending[r.id], run, s')
  {
    ReachableInv(s);
    var c := s.pending[r.id];
    assert CleanEntry(s, r.id, c);
    var run, s1 := Arrives(s, r, c);
    var s2 := StepOf(s1, Receive(c));
    var s3 := StepOf(s2, Leave(c));
    RunOn(s2, Leave(c), s3, [], s3);
    RunOn(s1, Receive(c), s2, [Leave(c)] + [], s3);
    var back := [Receive(c)] + ([Leave(c)] + []);
    RunBoth(s, run, s1, back, s3);
    assert Returns(s, r, c, run + back, s3);
  }

  // ---- why calls fail ----

  /** What a call is going to return, once that is settled. */
  function Verdict(pc: Caller): Option<Result>
  {
    match pc
    case GivingUp(_, why) => Some(why)
    case Removing(_, why) => Some(why)
    case Leaving(_, r) => Some(r)
    case Returned(_, r) => Some(r)
    case _ => None
  }

  /** The verdict agrees with what has happened to the call. */
  predicate Agrees(cancelled: bool, unsent: bool, unencoded: bool, pc: Caller)
  {
    && (cancelled <==> Verdict(pc) == Some(Cancelled))
    && (unsent <==> Verdict(pc) == Some(SendFailed))
    && (unencoded <==> Verdict(pc) == Some(MarshalFailed))
  }

  predicate CausesOf(hist: seq<Event>, c: nat, pc: Caller)
  {
    Agrees(Cancel(c) in hist, Send(c, false) in hist, FailMarshal(c) in hist, pc)
  }

  lemma InSnoc(hist: seq<Event>, e: Event, x: Event)
    ensures x in hist + [e] <==> x in hist || x == e
  {
  }

  lemma CausesNext(hist: seq<Event>, c: nat, e: Event)
    ensures Cancel(c) in hist + [e] <==> Cancel(c) in hist || e == Cancel(c)
    ensures Send(c, false) in hist + [e] <==> Send(c, false) in hist || e == Send(c, false)
    ensures FailMarshal(c) in hist + [e] <==> FailMarshal(c) in hist || e == FailMarshal(c)
  {
    InSnoc(hist, e, Cancel(c));
    InSnoc(hist, e, Send(c, false));
    InSnoc(hist, e, FailMarshal(c));
  }

  /** The caller's own step. */
  lemma OwnMove(s: State, e: Event, x: bool, y: bool, z: bool)
    requires Enabled(s, e) && ByACaller(e) && Agrees(x, y, z, s.callers[e.c])
    ensures e.c < |StepOf(s, e).callers|
    ensures Agrees(x || e.Cancel?, y || (e.Send? && !e.ok), z || e.FailMarshal?, StepOf(s, e).callers[e.c])
  {
  }

  lemma ReaderKeepsCallers(s: State, e: Event)
    requires Enabled(s, e) && !ByACaller(e)
    ensures StepOf(s, e).callers == s.callers
  {
  }

  lemma CausesMove(hist: seq<Event>, s: State, e: Event, c: nat)
    requires Inv(s) && Enabled(s, e) && c < |s.callers| && CausesOf(hist, c, s.callers[c])
    ensures c < |StepOf(s, e).callers| && CausesOf(hist + [e], c, StepOf(s, e).callers[c])
  {
    CausesNext(hist, c, e);
    if !ByACaller(e) {
      ReaderKeepsCallers(s, e);
    } else if e.c == c {
      OwnMove(s, e, Cancel(c) in hist, Send(c, false) in hist, FailMarshal(c) in hist);
    } else {
      CallerStep(s, e);
    }
  }

  lemma CausesFirst(hist: seq<Event>, s: State, run: seq<Event>, c: nat) returns (t: State)
    requires Inv(s) && c < |s.callers| && CausesOf(hist, c, s.callers[c]) && run != [] && Feasible(s, run)
    ensures Inv(t) && c < |t.callers| && CausesOf(hist + [run[0]], c, t.callers[c])
    ensures Feasible(t, run[1..]) && Exec(t, run[1..]) == Exec(s, run)
  {
    t := RunFirst(s, run);
    CausesMove(hist, s, run[0], c);
    StepInv(s, run[0]);
  }

  lemma Regroup(hist: seq<Event>, run: seq<Event>)
    requires run != []
    ensures hist + run == hist + [run[0]] + run[1..]
  {
  }

  lemma {:induction false} CausesAlong(hist: seq<Event>, s: State, run: seq<Event>, c: nat,
                                       whole: seq<Event>, end: State)
    requires Inv(s) && c < |s.callers| && CausesOf(hist, c, s.callers[c])
    requires Feasible(s, run) && Exec(s, run) == end && whole == hist + run
    ensures c < |end.callers| && CausesOf(whole, c, end.callers[c])
    decreases |run|
  {
    if run == [] {
      assert whole == hist;
    } else {
      var t := CausesFirst(hist, s, run, c);
      Regroup(hist, run);
      CausesAlong(hist + [run[0]], t, run[1..], c, whole, end);
    }
  }

  lemma {:induction false} CallersStay(s: State, run: seq<Event>)
    requires Inv(s) && Feasible(s, run)
    ensures |Exec(s, run).callers| == |s.callers|
    decreases |run|
  {
    if run != [] {
      var t := RunFirst(s, run);
      StepInv(s, run[0]);
      if ByACaller(run[0]) { CallerStep(s, run[0]); } else { ReaderKeepsCallers(s, run[0]); }
      CallersStay(t, run[1..]);
    }
  }

  /** A call returns that it was cancelled, that it could not be sent, or that its request could not be encoded,
      exactly when that happened; any other returned call has its reply. */
  lemma FailureHasCause(n: nat, run: seq<Event>, c: nat)
    requires Feasible(Init(n), run) && c < |Exec(Init(n), run).callers| && Exec(Init(n), run).callers[c].Returned?
    ensures var r := Exec(Init(n), run).callers[c].r;
      && (r == Cancelled <==> Cancel(c) in run)
      && (r == SendFailed <==> Send(c, false) in run)
      && (r == MarshalFailed <==> FailMarshal(c) in run)
      && (IsReply(r) <==> Cancel(c) !in run && Send(c, false) !in run && FailMarshal(c) !in run)
  {
    InitInv(n);
    CallersStay(Init(n), run);
    assert [] + run == run;
    CausesAlong([], Init(n), run, c, run, Exec(Init(n), run));
  }
}
