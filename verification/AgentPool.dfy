/** The bounded pool of sub-agents: a counting semaphore around per-type stacks of idle agents,
    used by any number of workers at once. */
module AgentPool {

  /** `serial` tells agents of a type apart; the pool only ever compares references. */
  datatype Agent = Agent(kind: string, serial: nat)

  datatype Phase = Out | Waiting(kind: string) | Admitted(kind: string) | Holding(agent: Agent) | Parked

  datatype State = State(capacity: nat, slots: nat, idle: map<string, seq<Agent>>,
                         created: map<string, nat>, workers: seq<Phase>)

  function Idle(s: State, kind: string): seq<Agent>
  {
    if kind in s.idle then s.idle[kind] else []
  }

  function Created(s: State, kind: string): nat
  {
    if kind in s.created then s.created[kind] else 0
  }

  function Start(maxParallel: int, workers: nat): State
  {
    State(if maxParallel <= 0 then 3 else maxParallel, 0, map[], map[], seq(workers, _ => Out))
  }

  /** The critical section of Acquire: the last idle agent of the type, or a new one. */
  function Taken(s: State, w: nat, kind: string): State
    requires w < |s.workers|
  {
    var pool := Idle(s, kind);
    if pool != [] then
      s.(idle := s.idle[kind := pool[..|pool| - 1]], workers := s.workers[w := Holding(pool[|pool| - 1])])
    else
      var made := Agent(kind, Created(s, kind));
      s.(created := s.created[kind := Created(s, kind) + 1], workers := s.workers[w := Holding(made)])
  }

  /** The critical section of Release; the slot is freed only afterwards. */
  function Returned(s: State, w: nat, a: Agent): State
    requires w < |s.workers|
  {
    s.(idle := s.idle[a.kind := Idle(s, a.kind) + [a]], workers := s.workers[w := Parked])
  }

  /** Worker `w` is not blocked. */
  predicate Enabled(s: State, w: nat)
  {
    && w < |s.workers|
    && (s.workers[w].Waiting? ==> s.slots < s.capacity)
    && (s.workers[w].Parked? ==> s.slots > 0)
  }

  /** One step of a worker; `kind` is what an idle worker asks for next. */
  datatype Move = Move(worker: nat, kind: string)

  function Next(s: State, m: Move): State
    requires Enabled(s, m.worker)
  {
    var w := m.worker;
    match s.workers[w]
    case Out => s.(workers := s.workers[w := Waiting(m.kind)])
    case Waiting(kind) => s.(slots := s.slots + 1, workers := s.workers[w := Admitted(kind)])
    case Admitted(kind) => Taken(s, w, kind)
    case Holding(a) => Returned(s, w, a)
    case Parked => s.(slots := s.slots - 1, workers := s.workers[w := Out])
  }

  /** Workers step one at a time, in any order. */
  predicate Feasible(s: State, run: seq<Move>)
    decreases |run|
  {
    run == [] || (Enabled(s, run[0].worker) && Feasible(Next(s, run[0]), run[1..]))
  }

  function Exec(s: State, run: seq<Move>): State
    requires Feasible(s, run)
    decreases |run|
  {
    if run == [] then s else Exec(Next(s, run[0]), run[1..])
  }

  ghost predicate Reachable(s: State, maxParallel: int)
  {
    exists n: nat, run :: Feasible(Start(maxParallel, n), run) && Exec(Start(maxParallel, n), run) == s
  }

  /** The pool object. Acquire and Release run here without interruption; each is two steps of the machine,
      so that other workers may come between. */
  class Pool {
    const capacity: nat
    var slots: nat
    var idle: map<string, seq<Agent>>
    var created: map<string, nat>

    constructor (maxParallel: int)
      ensures forall n: nat :: At(seq(n, _ => Out)) == Start(maxParallel, n)
    {
      capacity := if maxParallel <= 0 then 3 else maxParallel;
      slots, idle, created := 0, map[], map[];
    }

    /** The pool among its workers. */
    ghost function At(workers: seq<Phase>): State
      reads this
    {
      State(capacity, slots, idle, created, workers)
    }

    /** Would block while no slot is free. */
    method Acquire(kind: string, ghost workers: seq<Phase>, ghost w: nat) returns (agent: Agent)
      requires slots < capacity && w < |workers| && workers[w] == Waiting(kind)
      modifies this
      ensures At(workers[w := Holding(agent)]) == Taken(Next(old(At(workers)), Move(w, "")), w, kind)
    {
      slots := slots + 1;
      var pool := if kind in idle then idle[kind] else [];
      if |pool| > 0 {
        agent := pool[|pool| - 1];
        idle := idle[kind := pool[..|pool| - 1]];
        return;
      }
      var serial := if kind in created then created[kind] else 0;
      created := created[kind := serial + 1];
      agent := Agent(kind, serial);
    }

    method Release(agent: Agent, ghost workers: seq<Phase>, ghost w: nat)
      requires slots > 0 && w < |workers| && workers[w] == Holding(agent)
      modifies this
      ensures At(workers[w := Out]) == Next(Returned(old(At(workers)), w, agent), Move(w, ""))
    {
      idle := idle[agent.kind := (if agent.kind in idle then idle[agent.kind] else []) + [agent]];
      slots := slots - 1;
    }
  }

  // ---- counting workers ----

  predicate Occupies(p: Phase)
  {
    p.Admitted? || p.Holding? || p.Parked?
  }

  predicate Holds(p: Phase, kind: string)
  {
    p.Holding? && p.agent.kind == kind
  }

  function Occupied(ws: seq<Phase>): nat
  {
    if ws == [] then 0 else Occupied(ws[..|ws| - 1]) + if Occupies(ws[|ws| - 1]) then 1 else 0
  }

  function Held(ws: seq<Phase>, kind: string): nat
  {
    if ws == [] then 0 else Held(ws[..|ws| - 1], kind) + if Holds(ws[|ws| - 1], kind) then 1 else 0
  }

  function Holders(ws: seq<Phase>): nat
  {
    if ws == [] then 0 else Holders(ws[..|ws| - 1]) + if ws[|ws| - 1].Holding? then 1 else 0
  }

  lemma {:induction false} OccupiedUpdate(ws: seq<Phase>, w: nat, p: Phase)
    requires w < |ws|
    ensures Occupied(ws[w := p]) == Occupied(ws) - (if Occupies(ws[w]) then 1 else 0) + if Occupies(p) then 1 else 0
  {
    if w == |ws| - 1 {
      assert ws[w := p][..w] == ws[..w];
    } else {
      OccupiedUpdate(ws[..|ws| - 1], w, p);
      assert ws[w := p][..|ws| - 1] == ws[..|ws| - 1][w := p];
    }
  }

  lemma {:induction false} HeldUpdate(ws: seq<Phase>, w: nat, p: Phase, kind: string)
    requires w < |ws|
    ensures Held(ws[w := p], kind) ==
      Held(ws, kind) - (if Holds(ws[w], kind) then 1 else 0) + if Holds(p, kind) then 1 else 0
  {
    if w == |ws| - 1 {
      assert ws[w := p][..w] == ws[..w];
    } else {
      HeldUpdate(ws[..|ws| - 1], w, p, kind);
      assert ws[w := p][..|ws| - 1] == ws[..|ws| - 1][w := p];
    }
  }

  /** Holders occupy slots, and so does a worker that has a slot but no agent yet. */
  lemma {:induction false} HeldWithinOccupied(ws: seq<Phase>, kind: string)
    ensures Held(ws, kind) <= Holders(ws) <= Occupied(ws)
    ensures (exists w :: 0 <= w < |ws| && ws[w].Admitted?) ==> Held(ws, kind) < Occupied(ws)
  {
    if ws != [] {
      HeldWithinOccupied(ws[..|ws| - 1], kind);
      if w :| 0 <= w < |ws| && ws[w].Admitted? {
        assert w < |ws| - 1 ==> ws[..|ws| - 1][w].Admitted?;
      }
    }
  }

  lemma {:induction false} NobodyOut(n: nat, kind: string)
    ensures Occupied(seq(n, _ => Out)) == 0 && Held(seq(n, _ => Out), kind) == 0
  {
    if n > 0 {
      NobodyOut(n - 1, kind);
      assert seq(n, _ => Out)[..n - 1] == seq(n - 1, _ => Out);
    }
  }

  // ---- the invariant ----

  /** The idle stack of a type: agents of that type, all created, all different. */
  ghost predicate StackOk(kind: string, idle: seq<Agent>, created: nat)
  {
    && (forall i :: 0 <= i < |idle| ==> idle[i].kind == kind && idle[i].serial < created)
    && forall i, j :: 0 <= i < j < |idle| ==> idle[i] != idle[j]
  }

  /** A held agent exists and is not idle. */
  ghost predicate HeldOk(s: State, p: Phase)
  {
    p.Holding? ==> p.agent.serial < Created(s, p.agent.kind) && p.agent !in Idle(s, p.agent.kind)
  }

  ghost predicate DifferentAgents(p: Phase, q: Phase)
  {
    p.Holding? && q.Holding? ==> p.agent != q.agent
  }

  ghost predicate KindOk(s: State, kind: string)
  {
    && StackOk(kind, Idle(s, kind), Created(s, kind))
    && |Idle(s, kind)| + Held(s.workers, kind) == Created(s, kind) <= s.capacity
  }

  ghost predicate Inv(s: State)
  {
    && s.slots == Occupied(s.workers) <= s.capacity
    && (forall kind: string :: KindOk(s, kind))
    && (forall w :: 0 <= w < |s.workers| ==> HeldOk(s, s.workers[w]))
    && forall v, w :: 0 <= v < w < |s.workers| ==> DifferentAgents(s.workers[v], s.workers[w])
  }

  lemma StartInv(maxParallel: int, workers: nat)
    ensures Inv(Start(maxParallel, workers))
  {
    var s := Start(maxParallel, workers);
    NobodyOut(workers, "");
    forall kind: string ensures KindOk(s, kind) {
      NobodyOut(workers, kind);
    }
  }

  lemma QuietKindOk(s: State, t: State, w: nat, p: Phase, kind: string)
    requires w < |s.workers| && t.workers == s.workers[w := p] && t == s.(slots := t.slots, workers := t.workers)
    requires !s.workers[w].Holding? && !p.Holding? && KindOk(s, kind)
    ensures KindOk(t, kind)
  {
    HeldUpdate(s.workers, w, p, kind);
  }

  /** A step that only moves a worker between phases in which it holds nothing. */
  lemma QuietStepInv(s: State, t: State, w: nat, p: Phase)
    requires Inv(s) && w < |s.workers| && t.workers == s.workers[w := p]
      && t == s.(slots := t.slots, workers := t.workers)
    requires !s.workers[w].Holding? && !p.Holding?
    requires t.slots ==
      s.slots - (if Occupies(s.workers[w]) then 1 else 0) + (if Occupies(p) then 1 else 0) <= s.capacity
    ensures Inv(t)
  {
    OccupiedUpdate(s.workers, w, p);
    forall kind: string ensures KindOk(t, kind) {
      assert KindOk(s, kind);
      QuietKindOk(s, t, w, p, kind);
    }
    forall v | 0 <= v < |t.workers| ensures HeldOk(t, t.workers[v]) {
      assert HeldOk(s, s.workers[v]);
    }
  }

  lemma TakenKindOk(s: State, w: nat, kind: string, other: string)
    requires Inv(s) && w < |s.workers| && s.workers[w] == Admitted(kind)
    ensures KindOk(Taken(s, w, kind), other)
  {
    assert KindOk(s, other) && KindOk(s, kind);
    HeldUpdate(s.workers, w, Taken(s, w, kind).workers[w], other);
    HeldWithinOccupied(s.workers, other);
  }

  /** The agent taken was held by nobody and is no longer idle. */
  lemma TakenAgentFree(s: State, w: nat, kind: string, v: nat)
    requires Inv(s) && w < |s.workers| && s.workers[w] == Admitted(kind) && v < |s.workers|
    ensures var t := Taken(s, w, kind);
      HeldOk(t, t.workers[v]) && (v != w ==> DifferentAgents(t.workers[v], t.workers[w]))
  {
    assert KindOk(s, kind) && HeldOk(s, s.workers[v]);
    var pool := Idle(s, kind);
    if pool != [] {
      assert pool[|pool| - 1] in pool;
      assert forall a :: a in pool[..|pool| - 1] ==> a in pool;
    }
  }

  lemma TakeStepInv(s: State, w: nat, kind: string)
    requires Inv(s) && w < |s.workers| && s.workers[w] == Admitted(kind)
    ensures Inv(Taken(s, w, kind))
  {
    var t := Taken(s, w, kind);
    OccupiedUpdate(s.workers, w, t.workers[w]);
    forall other: string ensures KindOk(t, other) { TakenKindOk(s, w, kind, other); }
    forall v | 0 <= v < |t.workers|
      ensures HeldOk(t, t.workers[v]) && (v != w ==> DifferentAgents(t.workers[v], t.workers[w]))
    {
      TakenAgentFree(s, w, kind, v);
    }
  }

  lemma ReturnedKindOk(s: State, w: nat, a: Agent, other: string)
    requires Inv(s) && w < |s.workers| && s.workers[w] == Holding(a)
    ensures KindOk(Returned(s, w, a), other)
  {
    assert KindOk(s, other) && HeldOk(s, s.workers[w]);
    HeldUpdate(s.workers, w, Parked, other);
  }

  lemma ReturnStepInv(s: State, w: nat, a: Agent)
    requires Inv(s) && w < |s.workers| && s.workers[w] == Holding(a)
    ensures Inv(Returned(s, w, a))
  {
    var t := Returned(s, w, a);
    OccupiedUpdate(s.workers, w, Parked);
    forall other: string ensures KindOk(t, other) { ReturnedKindOk(s, w, a, other); }
    forall v | 0 <= v < |t.workers| ensures HeldOk(t, t.workers[v]) {
      assert HeldOk(s, s.workers[v]);
      assert v < w ==> DifferentAgents(s.workers[v], s.workers[w]);
      assert v > w ==> DifferentAgents(s.workers[w], s.workers[v]);
    }
  }

  lemma StepInv(s: State, m: Move)
    requires Inv(s) && Enabled(s, m.worker)
    ensures Inv(Next(s, m))
  {
    match s.workers[m.worker]
    case Admitted(kind) => TakeStepInv(s, m.worker, kind);
    case Holding(a) => ReturnStepInv(s, m.worker, a);
    case _ => QuietStepInv(s, Next(s, m), m.worker, Next(s, m).workers[m.worker]);
  }

  lemma {:induction false} ExecInv(s: State, run: seq<Move>)
    requires Inv(s) && Feasible(s, run)
    ensures Inv(Exec(s, run)) && Exec(s, run).capacity == s.capacity
    decreases |run|
  {
    if run != [] {
      StepInv(s, run[0]);
      ExecInv(Next(s, run[0]), run[1..]);
    }
  }

  lemma ReachableInv(s: State, maxParallel: int)
    requires Reachable(s, maxParallel)
    ensures Inv(s) && s.capacity == if maxParallel <= 0 then 3 else maxParallel
  {
    var n: nat, run :| Feasible(Start(maxParallel, n), run) && Exec(Start(maxParallel, n), run) == s;
    StartInv(maxParallel, n);
    ExecInv(Start(maxParallel, n), run);
  }

  /** In every reachable state: no agent held twice, at most `maxParallel` held (3 when it is not
      positive), held plus idle is created for each type, and never more than `maxParallel` created. */
  lemma PoolBound(s: State, maxParallel: int, kind: string)
    requires Reachable(s, maxParallel)
    ensures forall v, w :: 0 <= v < w < |s.workers| ==> DifferentAgents(s.workers[v], s.workers[w])
    ensures Holders(s.workers) <= if maxParallel <= 0 then 3 else maxParallel
    ensures |Idle(s, kind)| + Held(s.workers, kind) == Created(s, kind)
    ensures Created(s, kind) <= if maxParallel <= 0 then 3 else maxParallel
  {
    ReachableInv(s, maxParallel);
    assert KindOk(s, kind);
    HeldWithinOccupied(s.workers, kind);
  }

  lemma {:induction false} SomeOccupant(ws: seq<Phase>)
    requires Occupied(ws) > 0
    ensures exists w :: 0 <= w < |ws| && Occupies(ws[w])
  {
    if !Occupies(ws[|ws| - 1]) {
      SomeOccupant(ws[..|ws| - 1]);
      var w :| 0 <= w < |ws| - 1 && Occupies(ws[..|ws| - 1][w]);
      assert Occupies(ws[w]);
    }
  }

  /** A worker that wants a slot can have one, or some worker that has a slot can move. */
  lemma WaiterNotStuck(s: State, maxParallel: int, w: nat)
    requires Reachable(s, maxParallel) && w < |s.workers| && s.workers[w].Waiting?
    ensures Enabled(s, w) || exists v: nat :: Enabled(s, v) && Occupies(s.workers[v])
  {
    ReachableInv(s, maxParallel);
    if s.slots == s.capacity {
      SomeOccupant(s.workers);
      var v :| 0 <= v < |s.workers| && Occupies(s.workers[v]);
      assert Enabled(s, v);
    }
  }
}
