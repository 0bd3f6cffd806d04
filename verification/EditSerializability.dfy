/** Interleaved edits end as if run one at a time. */
module EditSerializability {
  import opened EditCalls
  import opened EditBody
  import opened EditProtocol
  import opened Counting

  ghost predicate InRange(order: seq<nat>, n: nat)
  {
    forall i :: 0 <= i < |order| ==> order[i] < n
  }

  /** The calls of `order` run one at a time. */
  ghost function Serial(fs: Files, calls: seq<Call>, order: seq<nat>): (r: (Files, seq<Outcome>))
    requires InRange(order, |calls|)
    ensures |r.1| == |order|
  {
    if order == [] then (fs, [])
    else
      var (f, outs) := Serial(fs, calls, order[..|order| - 1]);
      var (f', o) := CallSpec(f, calls[order[|order| - 1]]);
      (f', outs + [o])
  }

  /** No call targets the backup of a file that a single edit changes, unless it targets that file too
      (and so waits for the same lock). */
  ghost predicate NoBakTargets(calls: seq<Call>)
  {
    forall i, j :: 0 <= i < |calls| && 0 <= j < |calls| ==> !BakClash(calls[i], calls[j])
  }

  predicate BakClash(c: Call, d: Call)
  {
    c.Single? && c.path !in CallTargets(d) && Bak(c.path) in CallTargets(d)
  }

  ghost predicate Running(s: State, t: int)
  {
    0 <= t < |s.pcs| && s.pcs[t].Run?
  }

  lemma BakInjective(p: string, q: string)
    requires Bak(p) == Bak(q)
    ensures p == q
  {
    assert Bak(p)[..|Bak(p)| - 4] == p && Bak(q)[..|Bak(q)| - 4] == q;
  }

  ghost predicate OwnsTargets(calls: seq<Call>, s: State, t: nat)
    requires t < |calls|
  {
    forall p <- CallTargets(calls[t]) :: Owns(calls, s, t, p)
  }

  lemma AllOwned(calls: seq<Call>, s: State, t: nat)
    requires LockInv(calls, s) && t < |calls| && Held(calls[t], s.pcs[t]) == |Paths(calls[t])|
    ensures OwnsTargets(calls, s, t)
  {
    forall p <- CallTargets(calls[t]) ensures Owns(calls, s, t, p) {
      assert p in Paths(calls[t]);
    }
  }

  /** Calls that own all their targets touch different files. */
  lemma FeetDisjoint(calls: seq<Call>, s: State, t: nat, u: nat)
    requires LockInv(calls, s) && NoBakTargets(calls) && t != u && t < |calls| && u < |calls|
    requires OwnsTargets(calls, s, t) && OwnsTargets(calls, s, u)
    ensures Foot(calls[t]) !! Foot(calls[u])
  {
    assert forall p :: p in CallTargets(calls[t]) ==> p !in CallTargets(calls[u]);
    assert !BakClash(calls[t], calls[u]) && !BakClash(calls[u], calls[t]);
    if calls[t].Single? && calls[u].Single? {
      var p, q := calls[t].path, calls[u].path;
      assert p in CallTargets(calls[t]) && q in CallTargets(calls[u]);
      if Bak(p) == Bak(q) { BakInjective(p, q); }
    }
  }

  /** What a call past its lock point returns. */
  ghost function Fate(c: Call, pc: Pc, fs: Files): Outcome
    requires Past(pc) && (pc.Run? ==> Suits(c, pc.body))
  {
    if pc.Run? then RunBody(c, pc.body, fs).1 else pc.out
  }

  predicate Past(pc: Pc) { pc.Run? || pc.Unlock? || pc.Done? }

  /** `order` lists the calls past their lock point, each once. */
  ghost predicate OrderOk(calls: seq<Call>, s: State)
  {
    && |s.pcs| == |calls| && InRange(s.order, |calls|)
    && (forall i :: 0 <= i < |s.order| ==> Past(s.pcs[s.order[i]]))
    && (forall t :: 0 <= t < |calls| && Past(s.pcs[t]) ==> t in s.order)
    && Distinct(s.order)
  }

  /** The outcomes `outs` are those the calls are heading for. */
  ghost predicate FatesOk(calls: seq<Call>, s: State, outs: seq<Outcome>)
    requires PcsOk(calls, s) && OrderOk(calls, s)
  {
    && |outs| == |s.order|
    && forall i :: 0 <= i < |s.order| ==> outs[i] == Fate(calls[s.order[i]], s.pcs[s.order[i]], s.files)
  }

  /** On a running call's files, `sf` is what the call will leave. */
  ghost predicate FootOk(calls: seq<Call>, s: State, sf: Files, t: nat)
    requires PcsOk(calls, s) && Running(s, t)
  {
    AgreeOn(sf, RunBody(calls[t], s.pcs[t].body, s.files).0, Foot(calls[t]))
  }

  ghost predicate Untouched(calls: seq<Call>, s: State, p: string)
    requires PcsOk(calls, s)
  {
    forall t :: Running(s, t) ==> p !in Foot(calls[t])
  }

  ghost predicate FilesOk(calls: seq<Call>, s: State, sf: Files)
    requires PcsOk(calls, s)
  {
    && (forall t :: Running(s, t) ==> FootOk(calls, s, sf, t))
    && (forall p :: Untouched(calls, s, p) ==> Look(sf, p) == Look(s.files, p))
  }

  /** Letting every running call finish on its own would give `sf` and `outs`. */
  ghost predicate HeadingFor(calls: seq<Call>, s: State, sf: Files, outs: seq<Outcome>)
  {
    LockInv(calls, s) && OrderOk(calls, s) && FatesOk(calls, s, outs) && FilesOk(calls, s, sf)
  }

  /** The state is heading for the serial run of its lock-point order. */
  ghost predicate SimInv(calls: seq<Call>, fs0: Files, s: State)
  {
    InRange(s.order, |calls|) && HeadingFor(calls, s, Serial(fs0, calls, s.order).0, Serial(fs0, calls, s.order).1)
  }

  lemma InitSim(calls: seq<Call>, fs: Files)
    ensures SimInv(calls, fs, Init(calls, fs))
  {
    InitLockInv(calls, fs);
  }

  predicate AtLockPoint(c: Call, pc: Pc) { pc.Want? && pc.k == |Paths(c)| }

  /** Lock traffic changes neither files nor fates. */
  lemma SimLocking(calls: seq<Call>, s: State, t: nat, sf: Files, outs: seq<Outcome>)
    requires HeadingFor(calls, s, sf, outs) && Enabled(calls, s, t)
    requires !s.pcs[t].Run? && !AtLockPoint(calls[t], s.pcs[t])
    ensures HeadingFor(calls, StepOf(calls, s, t), sf, outs)
  {
    var s' := StepOf(calls, s, t);
    StepLockInv(calls, s, t);
    LockingKeeps(calls, s, t);
    SameFates(calls, s, s', outs);
    SameRunning(calls, s, s', sf);
  }

  lemma LockingKeeps(calls: seq<Call>, s: State, t: nat)
    requires LockInv(calls, s) && Enabled(calls, s, t)
    requires !s.pcs[t].Run? && !AtLockPoint(calls[t], s.pcs[t])
    ensures var s' := StepOf(calls, s, t);
      && s'.files == s.files && s'.order == s.order && |s'.pcs| == |s.pcs|
      && forall u :: 0 <= u < |calls| ==>
           && (Past(s'.pcs[u]) <==> Past(s.pcs[u])) && (s'.pcs[u].Run? <==> s.pcs[u].Run?)
           && (s.pcs[u].Run? ==> s'.pcs[u] == s.pcs[u])
           && (Past(s.pcs[u]) && !s.pcs[u].Run? ==> s'.pcs[u].out == s.pcs[u].out)
  {
  }

  lemma SameFates(calls: seq<Call>, s: State, s': State, outs: seq<Outcome>)
    requires PcsOk(calls, s) && PcsOk(calls, s') && OrderOk(calls, s) && FatesOk(calls, s, outs)
    requires s'.files == s.files && s'.order == s.order
    requires forall u :: 0 <= u < |calls| ==>
           && (Past(s'.pcs[u]) <==> Past(s.pcs[u])) && (s'.pcs[u].Run? <==> s.pcs[u].Run?)
           && (s.pcs[u].Run? ==> s'.pcs[u] == s.pcs[u])
           && (Past(s.pcs[u]) && !s.pcs[u].Run? ==> s'.pcs[u].out == s.pcs[u].out)
    ensures OrderOk(calls, s') && FatesOk(calls, s', outs)
  {
    forall i | 0 <= i < |s'.order| ensures outs[i] == Fate(calls[s'.order[i]], s'.pcs[s'.order[i]], s'.files) {
      assert outs[i] == Fate(calls[s.order[i]], s.pcs[s.order[i]], s.files);
    }
  }

  lemma SameRunning(calls: seq<Call>, s: State, s': State, sf: Files)
    requires PcsOk(calls, s) && PcsOk(calls, s') && FilesOk(calls, s, sf) && s'.files == s.files
    requires forall u :: 0 <= u < |calls| && (s.pcs[u].Run? || s'.pcs[u].Run?) ==> s'.pcs[u] == s.pcs[u]
    ensures FilesOk(calls, s', sf)
  {
    forall u | Running(s', u) ensures FootOk(calls, s', sf, u) { assert Running(s, u); }
    forall p | Untouched(calls, s', p) ensures Look(sf, p) == Look(s'.files, p) {
      forall u | Running(s, u) ensures p !in Foot(calls[u]) { assert Running(s', u); }
      assert Untouched(calls, s, p);
    }
  }

  /** A call whose body has ended leaves the running set. */
  lemma SimEnd(calls: seq<Call>, s: State, t: nat, sf: Files, outs: seq<Outcome>)
    requires HeadingFor(calls, s, sf, outs) && Enabled(calls, s, t)
    requires s.pcs[t].Run? && s.pcs[t].body.End?
    ensures HeadingFor(calls, StepOf(calls, s, t), sf, outs)
  {
    var s', c := StepOf(calls, s, t), calls[t];
    StepLockInv(calls, s, t);
    assert Running(s, t) && FootOk(calls, s, sf, t);
    assert RunBody(c, s.pcs[t].body, s.files) == (s.files, s.pcs[t].body.outcome);
    forall i | 0 <= i < |s'.order| ensures outs[i] == Fate(calls[s'.order[i]], s'.pcs[s'.order[i]], s'.files) {
      assert outs[i] == Fate(calls[s.order[i]], s.pcs[s.order[i]], s.files);
    }
    forall u | Running(s', u) ensures FootOk(calls, s', sf, u) { assert Running(s, u); }
    forall p | Untouched(calls, s', p) ensures Look(sf, p) == Look(s'.files, p) {
      if p !in Foot(c) {
        forall u | Running(s, u) ensures p !in Foot(calls[u]) { if u != t { assert Running(s', u); } }
        assert Untouched(calls, s, p);
      }
    }
  }

  /** A change of files inside one call's foot does not disturb another that owns its targets. */
  lemma Undisturbed(calls: seq<Call>, s: State, gs: Files, t: nat, u: nat, sf: Files)
    requires LockInv(calls, s) && NoBakTargets(calls) && t < |calls| && u != t && Running(s, u)
    requires OwnsTargets(calls, s, t) && SameOutside(s.files, gs, Foot(calls[t])) && FootOk(calls, s, sf, u)
    ensures Foot(calls[t]) !! Foot(calls[u])
    ensures RunBody(calls[u], s.pcs[u].body, gs).1 == RunBody(calls[u], s.pcs[u].body, s.files).1
    ensures AgreeOn(sf, RunBody(calls[u], s.pcs[u].body, gs).0, Foot(calls[u]))
  {
    AllOwned(calls, s, u);
    FeetDisjoint(calls, s, t, u);
    forall p <- Foot(calls[u]) ensures Look(gs, p) == Look(s.files, p) { assert p !in Foot(calls[t]); }
    RunLocal(calls[u], s.pcs[u].body, gs, s.files);
  }

  /** A running call takes a step of its body. */
  lemma SimBodyStep(calls: seq<Call>, s: State, t: nat, sf: Files, outs: seq<Outcome>)
    requires HeadingFor(calls, s, sf, outs) && NoBakTargets(calls) && Enabled(calls, s, t)
    requires s.pcs[t].Run? && !s.pcs[t].body.End?
    ensures HeadingFor(calls, StepOf(calls, s, t), sf, outs)
  {
    var s', c := StepOf(calls, s, t), calls[t];
    StepLockInv(calls, s, t);
    AllOwned(calls, s, t);
    StepLocal(c, s.pcs[t].body, s.files, s.files);
    assert Running(s, t) && FootOk(calls, s, sf, t);
    assert RunBody(c, s'.pcs[t].body, s'.files) == RunBody(c, s.pcs[t].body, s.files);
    forall u | Running(s', u)
      ensures RunBody(calls[u], s'.pcs[u].body, s'.files).1 == RunBody(calls[u], s.pcs[u].body, s.files).1
      ensures FootOk(calls, s', sf, u)
    {
      if u != t {
        assert Running(s, u);
        Undisturbed(calls, s, s'.files, t, u, sf);
      }
    }
    forall i | 0 <= i < |s'.order| ensures outs[i] == Fate(calls[s'.order[i]], s'.pcs[s'.order[i]], s'.files) {
      assert outs[i] == Fate(calls[s.order[i]], s.pcs[s.order[i]], s.files);
      if s'.pcs[s.order[i]].Run? { assert Running(s', s.order[i]); }
    }
    forall p | Untouched(calls, s', p) ensures Look(sf, p) == Look(s'.files, p) {
      assert Running(s', t);
      forall u | Running(s, u) ensures p !in Foot(calls[u]) { assert Running(s', u); }
      assert Untouched(calls, s, p);
    }
  }

  /** A call reaches its lock point: the serial run grows by that call. */
  lemma SimLockPoint(calls: seq<Call>, s: State, t: nat, sf: Files, outs: seq<Outcome>, sf': Files, o: Outcome)
    requires HeadingFor(calls, s, sf, outs) && NoBakTargets(calls) && Enabled(calls, s, t)
    requires AtLockPoint(calls[t], s.pcs[t]) && (sf', o) == RunBody(calls[t], BodyStart(calls[t]), sf)
    ensures HeadingFor(calls, StepOf(calls, s, t), sf', outs + [o])
  {
    var s', c := StepOf(calls, s, t), calls[t];
    StepLockInv(calls, s, t);
    AllOwned(calls, s, t);
    forall u | Running(s, u) ensures Foot(c) !! Foot(calls[u]) {
      Undisturbed(calls, s, s.files, t, u, sf);
    }
    forall p <- Foot(c) ensures Look(sf, p) == Look(s.files, p) { assert Untouched(calls, s, p); }
    RunLocal(c, BodyStart(c), sf, s.files);
    LockPointOrder(calls, s, t);
    forall i | 0 <= i < |s'.order| ensures (outs + [o])[i] == Fate(calls[s'.order[i]], s'.pcs[s'.order[i]], s'.files) {
      if i < |s.order| {
        assert s'.order[i] == s.order[i] && Past(s.pcs[s.order[i]]);
        assert outs[i] == Fate(calls[s.order[i]], s.pcs[s.order[i]], s.files);
      }
    }
    forall u | Running(s', u) ensures FootOk(calls, s', sf', u) {
      if u != t {
        assert Running(s, u) && FootOk(calls, s, sf, u);
        forall p <- Foot(calls[u]) ensures Look(sf', p) == Look(sf, p) { assert p !in Foot(c); }
      }
    }
    forall p | Untouched(calls, s', p) ensures Look(sf', p) == Look(s'.files, p) {
      assert Running(s', t);
      forall u | Running(s, u) ensures p !in Foot(calls[u]) { assert Running(s', u); }
      assert Untouched(calls, s, p);
    }
  }

  lemma LockPointOrder(calls: seq<Call>, s: State, t: nat)
    requires LockInv(calls, s) && OrderOk(calls, s) && Enabled(calls, s, t) && AtLockPoint(calls[t], s.pcs[t])
    ensures OrderOk(calls, StepOf(calls, s, t))
  {
    var s' := StepOf(calls, s, t);
    forall i | 0 <= i < |s'.order| ensures s'.order[i] < |calls| && Past(s'.pcs[s'.order[i]]) {
      if i < |s.order| { assert s'.order[i] == s.order[i] && Past(s.pcs[s.order[i]]); }
    }
    forall u | 0 <= u < |calls| && Past(s'.pcs[u]) ensures u in s'.order {
      if u != t { assert u in s.order; } else { assert s'.order[|s.order|] == t; }
    }
    assert forall i :: 0 <= i < |s.order| ==> Past(s.pcs[s.order[i]]) && s.order[i] != t;
  }

  lemma StepSim(calls: seq<Call>, fs0: Files, s: State, t: nat)
    requires SimInv(calls, fs0, s) && NoBakTargets(calls) && Enabled(calls, s, t)
    ensures SimInv(calls, fs0, StepOf(calls, s, t))
  {
    var (sf, outs) := Serial(fs0, calls, s.order);
    if s.pcs[t].Run? {
      if s.pcs[t].body.End? { SimEnd(calls, s, t, sf, outs); } else { SimBodyStep(calls, s, t, sf, outs); }
    } else if AtLockPoint(calls[t], s.pcs[t]) {
      RunIsSpec(calls[t], sf);
      var (sf', o) := CallSpec(sf, calls[t]);
      SimLockPoint(calls, s, t, sf, outs, sf', o);
      assert (s.order + [t])[..|s.order|] == s.order;
    } else {
      SimLocking(calls, s, t, sf, outs);
    }
  }

  lemma {:induction false} ExecSim(calls: seq<Call>, fs0: Files, s: State, sched: seq<nat>)
    requires SimInv(calls, fs0, s) && NoBakTargets(calls) && Feasible(calls, s, sched)
    ensures SimInv(calls, fs0, Exec(calls, s, sched))
    decreases |sched|
  {
    if sched != [] {
      StepSim(calls, fs0, s, sched[0]);
      ExecSim(calls, fs0, StepOf(calls, s, sched[0]), sched[1..]);
    }
  }

  /** Serializability. Whatever the interleaving, when all calls have returned, the file store and
      every outcome are those of running each call once, alone, in lock-point order. */
  lemma Serializable(calls: seq<Call>, fs: Files, sched: seq<nat>)
    requires NoBakTargets(calls) && Feasible(calls, Init(calls, fs), sched)
    requires AllDone(calls, Exec(calls, Init(calls, fs), sched))
    ensures var s := Exec(calls, Init(calls, fs), sched);
      && Permutes(s.order, |calls|) && InRange(s.order, |calls|)
      && s.files == Serial(fs, calls, s.order).0
      && forall i :: 0 <= i < |calls| ==> s.pcs[s.order[i]] == Done(Serial(fs, calls, s.order).1[i])
  {
    InitSim(calls, fs);
    ExecSim(calls, fs, Init(calls, fs), sched);
    var s := Exec(calls, Init(calls, fs), sched);
    AllDoneIsSerial(calls, s, Serial(fs, calls, s.order).0, Serial(fs, calls, s.order).1);
  }

  lemma AllDoneIsSerial(calls: seq<Call>, s: State, sf: Files, outs: seq<Outcome>)
    requires HeadingFor(calls, s, sf, outs) && AllDone(calls, s)
    ensures Permutes(s.order, |calls|) && s.files == sf && |outs| == |calls|
    ensures forall i :: 0 <= i < |calls| ==> s.pcs[s.order[i]] == Done(outs[i])
  {
    forall t | 0 <= t < |calls| ensures s.pcs[t].Done? { assert s.pcs[t] in s.pcs; }
    forall p ensures Look(sf, p) == Look(s.files, p) { assert Untouched(calls, s, p); }
    SameLookups(sf, s.files);
    DistinctCoveringIsPermutation(s.order, |calls|);
    forall i | 0 <= i < |calls| ensures s.pcs[s.order[i]] == Done(outs[i]) {
      assert outs[i] == Fate(calls[s.order[i]], s.pcs[s.order[i]], s.files);
    }
  }

  lemma SameLookups(fs: Files, gs: Files)
    requires forall p :: Look(fs, p) == Look(gs, p)
    ensures fs == gs
  {
    forall p ensures (p in fs <==> p in gs) && (p in fs ==> fs[p] == gs[p]) { assert Look(fs, p) == Look(gs, p); }
  }
}
