/** Edits never deadlock and always finish. */
module EditProgress {
  import opened Text
  import opened EditCalls
  import opened EditBody
  import opened EditProtocol
  import opened Wrappers

  // ---- deadlock freedom ----

  /** The path a blocked call waits for. */
  function Wanted(calls: seq<Call>, s: State, t: nat): string
    requires t < |calls| == |s.pcs| && s.pcs[t].Block? && s.pcs[t].k < |Paths(calls[t])|
  {
    Paths(calls[t])[s.pcs[t].k]
  }

  /** What each call waits for. */
  ghost function Waits(calls: seq<Call>, s: State): seq<Option<string>>
    requires PcsOk(calls, s)
  {
    seq(|calls|, t requires 0 <= t < |calls| => if s.pcs[t].Block? then Some(Wanted(calls, s, t)) else None)
  }

  /** No entry is larger than the one at `t`. */
  ghost predicate Largest(ws: seq<Option<string>>, t: nat)
  {
    t < |ws| && ws[t].Some? && forall u :: 0 <= u < |ws| && ws[u].Some? ==> !Less(ws[t].value, ws[u].value)
  }

  lemma {:induction false} LargestExists(ws: seq<Option<string>>) returns (t: nat)
    requires exists u :: 0 <= u < |ws| && ws[u].Some?
    ensures Largest(ws, t)
  {
    var n := |ws| - 1;
    var init := ws[..n];
    if ws[n].Some? { LessIrreflexive(ws[n].value); }
    if exists u :: 0 <= u < n && init[u].Some? {
      t := LargestExists(init);
      if ws[n].Some? && Less(ws[t].value, ws[n].value) {
        forall u | 0 <= u < n && ws[u].Some? ensures !Less(ws[n].value, ws[u].value) {
          assert init[u] == ws[u];
          if Less(ws[n].value, ws[u].value) { LessTransitive(ws[t].value, ws[n].value, ws[u].value); }
        }
        t := n;
      } else {
        assert forall u :: 0 <= u < n ==> init[u] == ws[u];
      }
    } else {
      assert forall u :: 0 <= u < n ==> init[u] == ws[u];
      t := n;
    }
  }

  /** When everyone unfinished is blocked, the owner of a path waited for waits for a larger one. */
  lemma OwnerWantsMore(calls: seq<Call>, s: State, t: nat) returns (u: nat)
    requires LockInv(calls, s) && t < |calls| && s.pcs[t].Block? && s.locks[Wanted(calls, s, t)].Some?
    requires forall v :: 0 <= v < |calls| ==> s.pcs[v].Done? || s.pcs[v].Block?
    ensures u < |calls| && Waits(calls, s)[u].Some? && Less(Wanted(calls, s, t), Waits(calls, s)[u].value)
  {
    u := s.locks[Wanted(calls, s, t)].value;
    assert Owns(calls, s, u, Wanted(calls, s, t));
  }

  /** While a call is unfinished, some call can step: of the blocked ones, the one waiting for the
      largest path finds it free. */
  lemma SomeoneCanStep(calls: seq<Call>, s: State)
    requires LockInv(calls, s) && !AllDone(calls, s)
    ensures exists t :: Enabled(calls, s, t)
  {
    if s.registry.Some? {
      assert Enabled(calls, s, s.registry.value);
    } else if u :| 0 <= u < |calls| && !s.pcs[u].Done? && !s.pcs[u].Block? {
      assert Enabled(calls, s, u);
    } else {
      var t0 :| 0 <= t0 < |calls| && !s.pcs[t0].Done?;
      var ws := Waits(calls, s);
      assert ws[t0].Some?;
      var t := LargestExists(ws);
      if s.locks[Wanted(calls, s, t)].Some? {
        var u := OwnerWantsMore(calls, s, t);
        assert false;
      }
      assert Enabled(calls, s, t);
    }
  }

  // ---- every run is finite ----

  function Base(c: Call): nat { Rank(c, BodyStart(c)) + |Paths(c)| + 3 }

  function PcRank(c: Call, pc: Pc): nat
    requires Suits(c, BodyStart(c))
  {
    var n := |Paths(c)|;
    match pc
    case Want(k) => (if k < n then 3 * (n - k) else 0) + Base(c)
    case InMap(k) => (if k < n then 3 * (n - k) - 1 else 0) + Base(c)
    case Block(k) => (if k < n then 3 * (n - k) - 2 else 0) + Base(c)
    case Run(b) => if Suits(c, b) then Rank(c, b) + n + 2 else 0
    case Unlock(k, _) => k + 1
    case Done(_) => 0
  }

  ghost function Measure(calls: seq<Call>, pcs: seq<Pc>): nat
    requires |pcs| == |calls|
  {
    if calls == [] then 0
    else Measure(calls[..|calls| - 1], pcs[..|pcs| - 1]) + PcRank(calls[|calls| - 1], pcs[|pcs| - 1])
  }

  lemma {:induction false} MeasureUpdate(calls: seq<Call>, pcs: seq<Pc>, t: nat, pc: Pc)
    requires t < |calls| == |pcs|
    ensures Measure(calls, pcs[t := pc]) == Measure(calls, pcs) - PcRank(calls[t], pcs[t]) + PcRank(calls[t], pc)
  {
    var n := |calls| - 1;
    if t == n {
      assert pcs[t := pc][..n] == pcs[..n];
    } else {
      assert pcs[t := pc][..n] == pcs[..n][t := pc];
      MeasureUpdate(calls[..n], pcs[..n], t, pc);
    }
  }

  lemma PcRankDecreases(calls: seq<Call>, s: State, t: nat)
    requires LockInv(calls, s) && Enabled(calls, s, t)
    ensures PcRank(calls[t], StepOf(calls, s, t).pcs[t]) < PcRank(calls[t], s.pcs[t])
  {
    if s.pcs[t].Run? && !s.pcs[t].body.End? {
      BodyStepOk(calls[t], s.pcs[t].body, s.files);
    }
  }

  lemma StepDecreases(calls: seq<Call>, s: State, t: nat)
    requires LockInv(calls, s) && Enabled(calls, s, t)
    ensures |StepOf(calls, s, t).pcs| == |calls|
    ensures Measure(calls, StepOf(calls, s, t).pcs) < Measure(calls, s.pcs)
  {
    var pcs' := StepOf(calls, s, t).pcs;
    assert s.pcs[t := pcs'[t]] == pcs';
    MeasureUpdate(calls, s.pcs, t, pcs'[t]);
    PcRankDecreases(calls, s, t);
  }

  lemma {:induction false} ExecLockInv(calls: seq<Call>, s: State, sched: seq<nat>)
    requires LockInv(calls, s) && Feasible(calls, s, sched)
    ensures LockInv(calls, Exec(calls, s, sched))
    ensures Measure(calls, Exec(calls, s, sched).pcs) + |sched| <= Measure(calls, s.pcs)
    decreases |sched|
  {
    if sched != [] {
      StepLockInv(calls, s, sched[0]);
      StepDecreases(calls, s, sched[0]);
      ExecLockInv(calls, StepOf(calls, s, sched[0]), sched[1..]);
    }
  }

  /** Deadlock freedom and termination. In every reachable state with an unfinished call some call can
      step, and no run is longer than the initial measure. */
  lemma NoDeadlock(calls: seq<Call>, fs: Files, sched: seq<nat>)
    requires Feasible(calls, Init(calls, fs), sched)
    ensures var s := Exec(calls, Init(calls, fs), sched); AllDone(calls, s) || exists t :: Enabled(calls, s, t)
    ensures |sched| <= Measure(calls, Init(calls, fs).pcs)
  {
    InitLockInv(calls, fs);
    ExecLockInv(calls, Init(calls, fs), sched);
    var s := Exec(calls, Init(calls, fs), sched);
    if !AllDone(calls, s) { SomeoneCanStep(calls, s); }
  }
}
