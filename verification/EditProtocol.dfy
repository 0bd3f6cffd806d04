/** Any number of edit calls running concurrently under the engine's path locks, as a transition
    system: a schedule is a sequence of call numbers, each taking one step. */
module EditProtocol {
  import opened Wrappers
  import opened Text
  import opened EditCalls
  import opened EditBody

  /** Where a call stands. `Want(k)`: its first `k` paths are locked and it is about to take the
      registry mutex for the next, or to start when none is left; `InMap(k)`: it holds the registry
      mutex; `Block(k)`: the registry mutex is released and it waits for the path's own mutex;
      `Unlock(k)`: `k` path locks are still held, released last first. */
  datatype Pc =
    | Want(k: nat)
    | InMap(k: nat)
    | Block(k: nat)
    | Run(body: Body)
    | Unlock(k: nat, out: Outcome)
    | Done(out: Outcome)

  /** `registry` is the mutex over the lock map; `locks` maps each known path to its mutex's owner.
      `order` records the calls in the order they had all their locks. */
  datatype State = State(files: Files, registry: Option<nat>, locks: map<string, Option<nat>>,
                         pcs: seq<Pc>, order: seq<nat>)

  /** The paths a call locks, in acquisition order. */
  function Paths(c: Call): (ps: seq<string>)
    ensures StrictlySorted(ps) && forall p :: p in ps <==> p in CallTargets(c)
  {
    SortDistinct(CallTargets(c))
  }

  /** The deduplicating loop of `lockPaths`; the sorted result is the acquisition order. */
  method LockPaths(c: Call) returns (paths: seq<string>)
    ensures paths == Paths(c)
  {
    var seen: set<string> := {};
    var distinct: seq<string> := [];
    var targets := CallTargets(c);
    for i := 0 to |targets|
      invariant forall p :: p in seen <==> p in distinct
      invariant forall p :: p in distinct <==> p in targets[..i]
    {
      assert targets[..i + 1] == targets[..i] + [targets[i]];
      if targets[i] in seen { continue; }
      seen := seen + {targets[i]};
      distinct := distinct + [targets[i]];
    }
    assert targets[..|targets|] == targets;
    paths := SortDistinct(distinct);
    SortedUnique(paths, Paths(c));
  }

  function Init(calls: seq<Call>, fs: Files): State
  {
    State(fs, None, map[], seq(|calls|, _ => Want(0)), [])
  }

  predicate Enabled(calls: seq<Call>, s: State, t: nat)
  {
    && t < |calls| && t < |s.pcs|
    && match s.pcs[t]
       case Want(k) => k >= |Paths(calls[t])| || s.registry.None?
       case InMap(k) => k < |Paths(calls[t])|
       case Block(k) => k < |Paths(calls[t])| && Paths(calls[t])[k] in s.locks && s.locks[Paths(calls[t])[k]].None?
       case Run(b) => Suits(calls[t], b)
       case Unlock(k, _) => k <= |Paths(calls[t])|
       case Done(_) => false
  }

  function StepOf(calls: seq<Call>, s: State, t: nat): State
    requires Enabled(calls, s, t)
  {
    var ps := Paths(calls[t]);
    match s.pcs[t]
    case Want(k) =>
      if k >= |ps| then s.(pcs := s.pcs[t := Run(BodyStart(calls[t]))], order := s.order + [t])
      else s.(pcs := s.pcs[t := InMap(k)], registry := Some(t))
    case InMap(k) =>
      s.(pcs := s.pcs[t := Block(k)], registry := None,
         locks := if ps[k] in s.locks then s.locks else s.locks[ps[k] := None])
    case Block(k) => s.(pcs := s.pcs[t := Want(k + 1)], locks := s.locks[ps[k] := Some(t)])
    case Run(b) =>
      if b.End? then s.(pcs := s.pcs[t := Unlock(|ps|, b.outcome)])
      else
        var (b', fs') := BodyStep(calls[t], b, s.files);
        s.(pcs := s.pcs[t := Run(b')], files := fs')
    case Unlock(k, out) =>
      if k == 0 then s.(pcs := s.pcs[t := Done(out)])
      else s.(pcs := s.pcs[t := Unlock(k - 1, out)], locks := s.locks[ps[k - 1] := None])
    case Done(_) => s
  }

  /** A schedule every step of which is possible. */
  ghost predicate Feasible(calls: seq<Call>, s: State, sched: seq<nat>)
    decreases |sched|
  {
    sched == [] || (Enabled(calls, s, sched[0]) && Feasible(calls, StepOf(calls, s, sched[0]), sched[1..]))
  }

  ghost function Exec(calls: seq<Call>, s: State, sched: seq<nat>): State
    requires Feasible(calls, s, sched)
    decreases |sched|
  {
    if sched == [] then s else Exec(calls, StepOf(calls, s, sched[0]), sched[1..])
  }

  /** Every call returned. */
  ghost predicate AllDone(calls: seq<Call>, s: State)
  {
    |s.pcs| == |calls| && forall pc <- s.pcs :: pc.Done?
  }

  // ---- the lock invariant ----

  /** How many of its paths a call has locked. */
  function Held(c: Call, pc: Pc): nat
  {
    match pc
    case Want(k) => k
    case InMap(k) => k
    case Block(k) => k
    case Run(_) => |Paths(c)|
    case Unlock(k, _) => k
    case Done(_) => 0
  }

  ghost predicate PcOk(c: Call, pc: Pc)
  {
    && Held(c, pc) <= |Paths(c)|
    && (pc.InMap? || pc.Block? ==> pc.k < |Paths(c)|)
    && (pc.Run? ==> Suits(c, pc.body))
  }

  ghost predicate Owns(calls: seq<Call>, s: State, t: int, p: string)
  {
    && 0 <= t < |calls| == |s.pcs|
    && exists k :: 0 <= k < Held(calls[t], s.pcs[t]) <= |Paths(calls[t])| && Paths(calls[t])[k] == p
  }

  ghost predicate PcsOk(calls: seq<Call>, s: State)
  {
    |s.pcs| == |calls| && forall t :: 0 <= t < |calls| ==> PcOk(calls[t], s.pcs[t])
  }

  ghost predicate RegistryOk(calls: seq<Call>, s: State)
    requires |s.pcs| == |calls|
  {
    && (forall t :: 0 <= t < |calls| ==> (s.pcs[t].InMap? <==> s.registry == Some(t)))
    && (s.registry.Some? ==> s.registry.value < |calls|)
  }

  ghost predicate OwnersOk(calls: seq<Call>, s: State)
  {
    forall t, p :: Owns(calls, s, t, p) <==> (p in s.locks && 0 <= t && s.locks[p] == Some(t))
  }

  ghost predicate BlocksOk(calls: seq<Call>, s: State)
    requires PcsOk(calls, s)
  {
    forall t :: 0 <= t < |calls| && s.pcs[t].Block? ==> Paths(calls[t])[s.pcs[t].k] in s.locks
  }

  /** Program points make sense, the registry mutex has the holder it claims, a path mutex is held
      by exactly the call that counts it among its own, and a path waited for is registered. */
  ghost predicate LockInv(calls: seq<Call>, s: State)
  {
    PcsOk(calls, s) && RegistryOk(calls, s) && OwnersOk(calls, s) && BlocksOk(calls, s)
  }

  lemma PathsDistinct(c: Call, i: nat, j: nat)
    requires i < j < |Paths(c)|
    ensures Paths(c)[i] != Paths(c)[j]
  {
    LessIrreflexive(Paths(c)[i]);
    assert Less(Paths(c)[i], Paths(c)[j]);
  }

  lemma InitLockInv(calls: seq<Call>, fs: Files)
    ensures LockInv(calls, Init(calls, fs))
  {
  }

  lemma OwnsOther(calls: seq<Call>, s: State, s': State, t: nat)
    requires t < |calls| == |s.pcs| == |s'.pcs| && forall u :: 0 <= u < |calls| && u != t ==> s'.pcs[u] == s.pcs[u]
    ensures forall u, p :: u != t ==> (Owns(calls, s', u, p) <==> Owns(calls, s, u, p))
  {
  }

  lemma OwnsMore(calls: seq<Call>, s: State, s': State, t: nat, k: nat)
    requires t < |calls| == |s.pcs| == |s'.pcs| && k < |Paths(calls[t])|
    requires Held(calls[t], s.pcs[t]) == k && Held(calls[t], s'.pcs[t]) == k + 1
    ensures forall p :: Owns(calls, s', t, p) <==> Owns(calls, s, t, p) || p == Paths(calls[t])[k]
    ensures !Owns(calls, s, t, Paths(calls[t])[k])
  {
    var ps := Paths(calls[t]);
    forall i | 0 <= i < k ensures ps[i] != ps[k] { PathsDistinct(calls[t], i, k); }
    forall p ensures Owns(calls, s', t, p) <==> Owns(calls, s, t, p) || p == ps[k] {
      if Owns(calls, s, t, p) || p == ps[k] {
        var j :| 0 <= j < k + 1 && ps[j] == p;
        assert 0 <= j < Held(calls[t], s'.pcs[t]);
      }
    }
  }

  /** What one call owns after its step. */
  lemma OwnsMoved(calls: seq<Call>, s: State, t: nat)
    requires LockInv(calls, s) && Enabled(calls, s, t)
    ensures var s' := StepOf(calls, s, t); forall p :: Owns(calls, s', t, p) <==>
      match s.pcs[t]
      case Block(k) => Owns(calls, s, t, p) || p == Paths(calls[t])[k]
      case Unlock(k, _) => Owns(calls, s, t, p) && (k == 0 || p != Paths(calls[t])[k - 1])
      case _ => Owns(calls, s, t, p)
  {
    var s' := StepOf(calls, s, t);
    match s.pcs[t]
    case Block(k) => OwnsMore(calls, s, s', t, k);
    case Unlock(k, _) => if k > 0 { OwnsMore(calls, s', s, t, k - 1); }
    case Want(k) => assert Held(calls[t], s'.pcs[t]) == k;
    case InMap(k) => assert Held(calls[t], s'.pcs[t]) == k;
    case Run(_) => assert Held(calls[t], s'.pcs[t]) == |Paths(calls[t])|;
    case Done(_) =>
  }

  lemma StepPcOk(calls: seq<Call>, s: State, t: nat)
    requires LockInv(calls, s) && Enabled(calls, s, t)
    ensures PcOk(calls[t], StepOf(calls, s, t).pcs[t])
  {
    if s.pcs[t].Run? && !s.pcs[t].body.End? {
      BodyStepOk(calls[t], s.pcs[t].body, s.files);
    }
  }

  lemma StepOwners(calls: seq<Call>, s: State, t: nat)
    requires LockInv(calls, s) && Enabled(calls, s, t)
    ensures OwnersOk(calls, StepOf(calls, s, t))
  {
    var s', ps := StepOf(calls, s, t), Paths(calls[t]);
    OwnsOther(calls, s, s', t);
    OwnsMoved(calls, s, t);
    if s.pcs[t].Unlock? && s.pcs[t].k > 0 {
      assert Owns(calls, s, t, ps[s.pcs[t].k - 1]);
    }
  }

  lemma StepPcsOk(calls: seq<Call>, s: State, t: nat)
    requires LockInv(calls, s) && Enabled(calls, s, t)
    ensures PcsOk(calls, StepOf(calls, s, t))
  {
    StepPcOk(calls, s, t);
  }

  lemma StepBlocks(calls: seq<Call>, s: State, t: nat)
    requires LockInv(calls, s) && Enabled(calls, s, t) && PcsOk(calls, StepOf(calls, s, t))
    ensures BlocksOk(calls, StepOf(calls, s, t))
  {
    var s' := StepOf(calls, s, t);
    assert s.locks.Keys <= s'.locks.Keys;
    forall u | 0 <= u < |calls| && s'.pcs[u].Block? ensures Paths(calls[u])[s'.pcs[u].k] in s'.locks {
      if u != t { assert s'.pcs[u] == s.pcs[u]; }
    }
  }

  lemma StepRegistry(calls: seq<Call>, s: State, t: nat)
    requires PcsOk(calls, s) && RegistryOk(calls, s) && Enabled(calls, s, t)
    ensures |StepOf(calls, s, t).pcs| == |calls| && RegistryOk(calls, StepOf(calls, s, t))
  {
    var s' := StepOf(calls, s, t);
    assert s.pcs[t].InMap? <==> s.registry == Some(t);
    forall u | 0 <= u < |calls| ensures s'.pcs[u].InMap? <==> s'.registry == Some(u) {
      if u != t { assert s'.pcs[u] == s.pcs[u]; }
    }
  }

  lemma StepLockInv(calls: seq<Call>, s: State, t: nat)
    requires LockInv(calls, s) && Enabled(calls, s, t)
    ensures LockInv(calls, StepOf(calls, s, t))
  {
    StepPcsOk(calls, s, t);
    StepBlocks(calls, s, t);
    StepRegistry(calls, s, t);
    StepOwners(calls, s, t);
  }
}
