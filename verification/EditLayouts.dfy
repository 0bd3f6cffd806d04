/** Which sets of concurrent edits are serializable, whatever they contain and however the calls of the
    outside world turn out: the answer depends on the target paths alone. */
module EditLayouts {
  import opened Counting
  import opened EditBody
  import opened EditCalls
  import opened EditProtocol
  import opened EditSerializability
  import opened Matching
  import opened Wrappers
  import EditAtomicity
  import EditProgress

  /** The same kinds of calls on the same paths. */
  ghost predicate SameLayout(a: seq<Call>, b: seq<Call>)
  {
    |a| == |b| && forall i :: 0 <= i < |a| ==> a[i].Single? == b[i].Single? && CallTargets(a[i]) == CallTargets(b[i])
  }

  ghost predicate FinishedRun(calls: seq<Call>, fs: Files, sched: seq<nat>)
  {
    Feasible(calls, Init(calls, fs), sched) && AllDone(calls, Exec(calls, Init(calls, fs), sched))
  }

  /** Files and outcomes are those of running the calls alone in `order`. */
  ghost predicate SerialAs(calls: seq<Call>, fs: Files, s: State, order: seq<nat>)
  {
    && Permutes(order, |calls|) && InRange(order, |calls|) && |s.pcs| == |calls|
    && s.files == Serial(fs, calls, order).0
    && forall i :: 0 <= i < |calls| ==> s.pcs[order[i]] == Done(Serial(fs, calls, order).1[i])
  }

  ghost predicate SerialResult(calls: seq<Call>, fs: Files, sched: seq<nat>)
    requires FinishedRun(calls, fs, sched)
  {
    exists order :: SerialAs(calls, fs, Exec(calls, Init(calls, fs), sched), order)
  }

  /** Every finished run of any calls of this layout ends as some serial run. */
  ghost predicate AlwaysSerial(layout: seq<Call>)
  {
    forall calls, fs, sched :: SameLayout(calls, layout) && FinishedRun(calls, fs, sched) ==>
      SerialResult(calls, fs, sched)
  }

  // ---- reachability ----

  ghost predicate Reaches(calls: seq<Call>, s: State, s': State)
  {
    exists sched :: Feasible(calls, s, sched) && Exec(calls, s, sched) == s'
  }

  lemma ReachesSelf(calls: seq<Call>, s: State)
    ensures Reaches(calls, s, s)
  {
    assert Feasible(calls, s, []) && Exec(calls, s, []) == s;
  }

  /** `s1` is what step `t` makes of `s`. */
  ghost predicate Steps(calls: seq<Call>, s: State, t: nat, s1: State)
  {
    Enabled(calls, s, t) && StepOf(calls, s, t) == s1
  }

  lemma ExecCons(calls: seq<Call>, s: State, t: nat, s1: State, rest: seq<nat>)
    requires Steps(calls, s, t, s1) && Feasible(calls, s1, rest)
    ensures Feasible(calls, s, [t] + rest) && Exec(calls, s, [t] + rest) == Exec(calls, s1, rest)
  {
    assert ([t] + rest)[1..] == rest;
  }

  lemma ExecUncons(calls: seq<Call>, s: State, a: seq<nat>) returns (s1: State)
    requires a != [] && Feasible(calls, s, a)
    ensures Steps(calls, s, a[0], s1) && Feasible(calls, s1, a[1..]) && Exec(calls, s, a) == Exec(calls, s1, a[1..])
  {
    s1 := StepOf(calls, s, a[0]);
  }

  lemma {:induction false} ReachesAfter(calls: seq<Call>, s: State, a: seq<nat>, s': State, s'': State)
    requires Feasible(calls, s, a) && Exec(calls, s, a) == s' && Reaches(calls, s', s'')
    ensures Reaches(calls, s, s'')
    decreases |a|
  {
    if a != [] {
      var s1 := ExecUncons(calls, s, a);
      ReachesAfter(calls, s1, a[1..], s', s'');
      var b :| Feasible(calls, s1, b) && Exec(calls, s1, b) == s'';
      ExecCons(calls, s, a[0], s1, b);
    }
  }

  lemma ReachesTrans(calls: seq<Call>, s: State, s': State, s'': State)
    requires Reaches(calls, s, s') && Reaches(calls, s', s'')
    ensures Reaches(calls, s, s'')
  {
    var a :| Feasible(calls, s, a) && Exec(calls, s, a) == s';
    ReachesAfter(calls, s, a, s', s'');
  }

  lemma ReachesStep(calls: seq<Call>, s: State, t: nat, s1: State)
    requires Steps(calls, s, t, s1)
    ensures Reaches(calls, s, s1)
  {
    assert Feasible(calls, s1, []) && Exec(calls, s1, []) == s1;
    ExecCons(calls, s, t, s1, []);
  }

  lemma ReachesNext(calls: seq<Call>, s: State, s1: State, t: nat, s2: State)
    requires Reaches(calls, s, s1) && Steps(calls, s1, t, s2)
    ensures Reaches(calls, s, s2)
  {
    ReachesStep(calls, s1, t, s2);
    ReachesTrans(calls, s, s1, s2);
  }

  // ---- one call on its own ----

  predicate Free(s: State, p: string) { p in s.locks ==> s.locks[p].None? }

  predicate CanTake(calls: seq<Call>, s: State, t: nat, k: nat)
  {
    && t < |calls| == |s.pcs| && k <= |Paths(calls[t])| && s.pcs[t] == Want(k) && s.registry.None?
    && forall i :: k <= i < |Paths(calls[t])| ==> Free(s, Paths(calls[t])[i])
  }

  /** The state once call `t` has all its locks. */
  ghost predicate Took(calls: seq<Call>, s: State, t: nat, s': State)
    requires t < |calls| == |s.pcs|
  {
    && s'.files == s.files && s'.registry.None? && s'.pcs == s.pcs[t := Want(|Paths(calls[t])|)]
    && forall p :: p !in Paths(calls[t]) && Free(s, p) ==> Free(s', p)
  }

  lemma WantStep(calls: seq<Call>, s: State, t: nat, k: nat) returns (s1: State)
    requires t < |calls| == |s.pcs| && k < |Paths(calls[t])| && s.pcs[t] == Want(k) && s.registry.None?
    ensures Steps(calls, s, t, s1) && s1.files == s.files && s1.locks == s.locks && s1.pcs == s.pcs[t := InMap(k)]
  {
    s1 := StepOf(calls, s, t);
  }

  lemma InMapStep(calls: seq<Call>, s: State, pcs: seq<Pc>, t: nat, k: nat, p: string) returns (s1: State)
    requires t < |calls| == |pcs| && k < |Paths(calls[t])| && s.pcs == pcs[t := InMap(k)]
    requires p == Paths(calls[t])[k] && Free(s, p)
    ensures Steps(calls, s, t, s1) && s1.files == s.files && s1.registry.None? && s1.pcs == pcs[t := Block(k)]
    ensures s1.locks == s.locks[p := None]
  {
    s1 := StepOf(calls, s, t);
    assert s1.locks == s.locks[p := None];
  }

  lemma BlockStep(calls: seq<Call>, s: State, pcs: seq<Pc>, locks: map<string, Option<nat>>, t: nat, k: nat, p: string)
    returns (s1: State)
    requires t < |calls| == |pcs| && k < |Paths(calls[t])| && s.pcs == pcs[t := Block(k)]
    requires p == Paths(calls[t])[k] && s.locks == locks[p := None]
    ensures Steps(calls, s, t, s1) && s1.files == s.files && s1.registry == s.registry
      && s1.pcs == pcs[t := Want(k + 1)]
    ensures s1.locks == locks[p := Some(t)]
  {
    s1 := StepOf(calls, s, t);
  }

  /** One path: the registry mutex, the entry, the path's own mutex. */
  lemma TakeSteps(calls: seq<Call>, s: State, t: nat, k: nat, p: string) returns (s': State)
    requires t < |calls| == |s.pcs| && k < |Paths(calls[t])| && s.pcs[t] == Want(k) && s.registry.None?
    requires p == Paths(calls[t])[k] && Free(s, p)
    ensures Reaches(calls, s, s')
    ensures s'.files == s.files && s'.registry.None? && s'.pcs == s.pcs[t := Want(k + 1)]
    ensures s'.locks == s.locks[p := Some(t)]
  {
    var s1 := WantStep(calls, s, t, k);
    var s2 := InMapStep(calls, s1, s.pcs, t, k, p);
    s' := BlockStep(calls, s2, s.pcs, s.locks, t, k, p);
    ReachesThree(calls, s, s1, s2, s', t);
  }

  lemma ReachesThree(calls: seq<Call>, s: State, s1: State, s2: State, s3: State, t: nat)
    requires Steps(calls, s, t, s1) && Steps(calls, s1, t, s2) && Steps(calls, s2, t, s3)
    ensures Reaches(calls, s, s3)
  {
    ReachesStep(calls, s, t, s1);
    ReachesNext(calls, s, s1, t, s2);
    ReachesNext(calls, s, s2, t, s3);
  }

  lemma TakeOne(calls: seq<Call>, s: State, t: nat, k: nat) returns (s': State)
    requires CanTake(calls, s, t, k) && k < |Paths(calls[t])|
    ensures Reaches(calls, s, s') && CanTake(calls, s', t, k + 1)
    ensures s'.files == s.files && s'.pcs == s.pcs[t := Want(k + 1)]
    ensures forall p :: p !in Paths(calls[t]) && Free(s, p) ==> Free(s', p)
  {
    var ps := Paths(calls[t]);
    assert Free(s, ps[k]);
    s' := TakeSteps(calls, s, t, k, ps[k]);
    assert forall q :: q != ps[k] && Free(s, q) ==> Free(s', q);
    forall i | k + 1 <= i < |ps| ensures Free(s', ps[i]) {
      StillFree(calls, s, t, k, i, s');
    }
  }

  lemma StillFree(calls: seq<Call>, s: State, t: nat, k: nat, i: nat, s': State)
    requires CanTake(calls, s, t, k) && k < i < |Paths(calls[t])|
    requires var p := Paths(calls[t])[k]; forall q :: q != p && Free(s, q) ==> Free(s', q)
    ensures Free(s', Paths(calls[t])[i])
  {
    PathsDistinct(calls[t], k, i);
    assert Free(s, Paths(calls[t])[i]);
  }

  lemma {:induction false} TakeAll(calls: seq<Call>, s: State, t: nat, k: nat) returns (s': State)
    requires CanTake(calls, s, t, k)
    ensures Reaches(calls, s, s') && Took(calls, s, t, s')
    decreases |Paths(calls[t])| - k
  {
    if k == |Paths(calls[t])| {
      s' := s;
      ReachesSelf(calls, s);
    } else {
      var s1 := TakeOne(calls, s, t, k);
      s' := TakeAll(calls, s1, t, k + 1);
      ReachesTrans(calls, s, s1, s');
    }
  }

  /** Call `t` starts its body. */
  lemma Begin(calls: seq<Call>, s: State, t: nat) returns (s': State)
    requires CanTake(calls, s, t, 0)
    ensures Reaches(calls, s, s') && s'.files == s.files && s'.registry.None?
    ensures s'.pcs == s.pcs[t := Run(BodyStart(calls[t]))]
    ensures forall p :: p !in Paths(calls[t]) && Free(s, p) ==> Free(s', p)
  {
    var s1 := TakeAll(calls, s, t, 0);
    s' := StepOf(calls, s1, t);
    ReachesNext(calls, s, s1, t, s');
  }

  /** The state after one more step of the body of call `t`. */
  lemma Advance(calls: seq<Call>, s: State, t: nat) returns (s': State)
    requires t < |calls| == |s.pcs| && s.pcs[t].Run? && Suits(calls[t], s.pcs[t].body) && !s.pcs[t].body.End?
    ensures Reaches(calls, s, s')
    ensures s' == s.(pcs := s.pcs[t := Run(BodyStep(calls[t], s.pcs[t].body, s.files).0)],
                     files := BodyStep(calls[t], s.pcs[t].body, s.files).1)
  {
    s' := StepOf(calls, s, t);
    ReachesStep(calls, s, t, s');
  }

  // ---- the calls of the counterexample ----

  /** A single edit that saves its file and then cannot write it. */
  function Racer(c: Call): Call
    requires c.Single?
  {
    Single(c.path, Replace("a", "b"), Env(true, Wrote, Denied, true, Wrote, true))
  }

  /** An edit that replaces "x" by "y" in each of its files. */
  function Rival(c: Call): Call
  {
    match c
    case Single(p, _, _) => Single(p, Replace("x", "y"), Env(true, Denied, Wrote, true, Wrote, false))
    case Batch(m) =>
      var steps := seq(|m.steps|, k requires 0 <= k < |m.steps| => Step(m.steps[k].path, "x", "y", true, Wrote, true));
      Batch(Multi(steps, [], map[]))
  }

  /** A call that cannot read its files. */
  function Idle(c: Call): Call
  {
    match c
    case Single(p, change, env) => Single(p, change, env.(readable := false))
    case Batch(m) =>
      Batch(Multi(seq(|m.steps|, k requires 0 <= k < |m.steps| => m.steps[k].(readable := false)), [], map[]))
  }

  ghost function Cast(layout: seq<Call>, i: nat, j: nat): (calls: seq<Call>)
    requires i < |layout| && j < |layout| && layout[i].Single?
    ensures |calls| == |layout|
  {
    seq(|layout|, u requires 0 <= u < |layout| =>
      if u == i then Racer(layout[u]) else if u == j then Rival(layout[u]) else Idle(layout[u]))
  }

  lemma CastLayout(layout: seq<Call>, i: nat, j: nat)
    requires i < |layout| && j < |layout| && layout[i].Single?
    ensures SameLayout(Cast(layout, i, j), layout)
  {
    forall u | 0 <= u < |layout|
      ensures Cast(layout, i, j)[u].Single? == layout[u].Single?
        && CallTargets(Cast(layout, i, j)[u]) == CallTargets(layout[u])
    {
      assert CallTargets(Rival(layout[u])) == CallTargets(layout[u]);
      assert CallTargets(Idle(layout[u])) == CallTargets(layout[u]);
    }
  }

  // ---- what each of them does ----

  lemma OneChar(x: char, y: char)
    ensures Count([x], [x]) == 1 && ReplaceFirst([x], [x], [y]) == [y]
    ensures x != y ==> Count([x], [y]) != 1
  {
    assert OccursAt([x], [x], 0) && SoleMatch([x], [x], 0);
    CountOneMeans([x], [x]);
    CountOneMeans([x], [y]);
    assert x != y ==> !OccursAt([x], [y], 0);
  }

  predicate IsRacer(c: Call) { c.Single? && c == Racer(c) }

  predicate IsRival(c: Call)
  {
    match c
    case Single(_, _, _) => c == Rival(c)
    case Batch(m) => m.order == [] && forall s <- m.steps :: s == Step(s.path, "x", "y", true, Wrote, true)
  }

  predicate IsIdle(c: Call)
  {
    match c
    case Single(_, _, env) => !env.readable
    case Batch(m) => m.order == [] && forall s <- m.steps :: !s.readable
  }

  /** The rest of the body succeeds and leaves "y" in `q`. */
  ghost predicate Bound(c: Call, b: Body, fs: Files, q: string)
  {
    Suits(c, b) && RunBody(c, b, fs).1 == Succeeded && Look(RunBody(c, b, fs).0, q) == Some("y")
  }

  /** A rival that has read "x" everywhere and not written yet. */
  ghost predicate Loaded(c: Call, b: Body)
  {
    && Suits(c, b)
    && match c
       case Single(_, _, _) => b == SBackup("x", "y")
       case Batch(m) => b.MWrite? && b.i == 0 && forall s <- m.steps :: s.path in b.saved && b.saved[s.path] == "x"
  }

  lemma LoadedSingle(c: Call, b: Body, fs: Files)
    requires c.Single? && IsRival(c) && Loaded(c, b)
    ensures Bound(c, b, fs, c.path)
  {
    var (b1, f1) := BodyStep(c, b, fs);
    var (b2, f2) := BodyStep(c, b1, f1);
    var (b3, f3) := BodyStep(c, b2, f2);
    var (b4, f4) := BodyStep(c, b3, f3);
    assert RunBody(c, b, fs) == RunBody(c, b1, f1) == RunBody(c, b2, f2);
    assert RunBody(c, b2, f2) == RunBody(c, b3, f3) == RunBody(c, b4, f4) == (f4, Succeeded);
  }

  lemma LoadedBatch(c: Call, b: Body, fs: Files, k: nat)
    requires c.Batch? && IsRival(c) && Loaded(c, b) && k < |c.multi.steps|
    ensures Bound(c, b, fs, c.multi.steps[k].path)
  {
    var m := c.multi;
    RunWrite(c, 0, b.saved, fs);
    EditAtomicity.WritesTouchTargets(fs, m.steps, 0, b.saved);
    var l := EditAtomicity.LastOn(m, k);
    assert m.steps[l] in m.steps;
    EditAtomicity.WritesApply(fs, m, 0, b.saved, l);
    OneChar('x', 'y');
  }

  lemma LoadedWins(c: Call, b: Body, fs: Files, q: string)
    requires IsRival(c) && Loaded(c, b) && q in CallTargets(c)
    ensures Bound(c, b, fs, q)
  {
    match c
    case Single(_, _, _) => LoadedSingle(c, b, fs);
    case Batch(m) =>
      var k :| 0 <= k < |m.steps| && Targets(m.steps)[k] == q;
      LoadedBatch(c, b, fs, k);
  }

  /** A rival that finds "a" in one of its files does not succeed. */
  lemma RivalRefused(c: Call, fs: Files, q: string)
    requires IsRival(c) && q in CallTargets(c) && Look(fs, q) == Some("a")
    ensures CallSpec(fs, c).1 != Succeeded
  {
    OneChar('a', 'x');
    match c
    case Single(_, _, _) =>
    case Batch(m) =>
      var k :| 0 <= k < |m.steps| && Targets(m.steps)[k] == q;
      assert m.steps[k] in m.steps && !Valid(fs, m.steps[k]);
      ValidateGathers(fs, m.steps, 0, map[]);
  }

  /** A rival leaves alone what it does not target. */
  lemma RivalLocal(c: Call, fs: Files, p: string)
    requires IsRival(c) && p !in CallTargets(c)
    ensures Look(CallSpec(fs, c).0, p) == Look(fs, p)
  {
    match c
    case Single(_, _, _) =>
    case Batch(m) =>
      RunLocal(c, BodyStart(c), fs, fs);
      RunIsSpec(c, fs);
      assert p !in Foot(c);
  }

  lemma RacerSaves(c: Call, fs: Files)
    requires IsRacer(c) && Look(fs, c.path) == Some("a")
    ensures Look(CallSpec(fs, c).0, c.path) == Look(CallSpec(fs, c).0, Bak(c.path)) == Some("a")
  {
    OneChar('a', 'b');
  }

  lemma IdleKeeps(c: Call, fs: Files)
    requires IsIdle(c)
    ensures CallSpec(fs, c).0 == fs
  {
    if c.Batch? && c.multi.steps != [] {
      assert c.multi.steps[0] in c.multi.steps;
    }
  }

  /** Where an idle call can be. */
  predicate IdleBody(c: Call, b: Body)
  {
    && Suits(c, b)
    && match b
       case SRead => true
       case End(_) => true
       case MRead(i, _) => i == 0
       case MWrite(_, _) => c.multi.steps == []
       case MLint(_, _) => c.multi.steps == []
       case MRestore(_, _, _) => true
       case _ => false
  }

  lemma IdleStep(c: Call, b: Body, fs: Files)
    requires IsIdle(c) && IdleBody(c, b) && !b.End?
    ensures BodyStep(c, b, fs).1 == fs && IdleBody(c, BodyStep(c, b, fs).0)
  {
    if c.Batch? && c.multi.steps != [] {
      assert c.multi.steps[0] in c.multi.steps;
    }
    BodyStepOk(c, b, fs);
  }

  // ---- no serial order explains it ----

  /** Call `i` edits a file whose backup `j` targets; the other calls do nothing. */
  ghost predicate Stage(calls: seq<Call>, fs: Files, i: nat, j: nat)
  {
    && i < |calls| && j < |calls| && i != j
    && IsRacer(calls[i]) && IsRival(calls[j]) && BakClash(calls[i], calls[j])
    && (forall u :: 0 <= u < |calls| && u != i && u != j ==> IsIdle(calls[u]))
    && Look(fs, calls[i].path) == Some("a") && forall p <- CallTargets(calls[j]) :: Look(fs, p) == Some("x")
  }

  ghost predicate SerialFacts(calls: seq<Call>, i: nat, j: nat, order: seq<nat>, f: Files, outs: seq<Outcome>)
    requires i < |calls| && calls[i].Single?
  {
    && |outs| == |order| && Look(f, calls[i].path) == Some("a")
    && (i in order && j !in order ==> Look(f, Bak(calls[i].path)) == Some("a"))
    && forall k :: 0 <= k < |order| && order[k] == j && i in order && outs[k] == Succeeded ==>
         Look(f, Bak(calls[i].path)) == Some("a")
  }

  lemma SerialFactsStep(calls: seq<Call>, fs: Files, i: nat, j: nat, order: seq<nat>, f: Files, outs: seq<Outcome>,
                        t: nat)
    requires Stage(calls, fs, i, j) && SerialFacts(calls, i, j, order, f, outs) && t < |calls| && t !in order
    ensures SerialFacts(calls, i, j, order + [t], CallSpec(f, calls[t]).0, outs + [CallSpec(f, calls[t]).1])
  {
    var order', outs' := order + [t], outs + [CallSpec(f, calls[t]).1];
    if t == i {
      RacerSaves(calls[i], f);
    } else if t == j {
      RivalLocal(calls[j], f, calls[i].path);
      if i in order { RivalRefused(calls[j], f, Bak(calls[i].path)); }
    } else {
      IdleKeeps(calls[t], f);
    }
    assert forall k :: 0 <= k < |order| ==> order'[k] == order[k] && order[k] != t && outs'[k] == outs[k];
  }

  lemma {:induction false} SerialTrack(calls: seq<Call>, fs: Files, i: nat, j: nat, order: seq<nat>)
    requires Stage(calls, fs, i, j) && InRange(order, |calls|) && Distinct(order)
    ensures SerialFacts(calls, i, j, order, Serial(fs, calls, order).0, Serial(fs, calls, order).1)
    decreases |order|
  {
    if order != [] {
      var init, t := order[..|order| - 1], order[|order| - 1];
      SerialTrack(calls, fs, i, j, init);
      SerialFactsStep(calls, fs, i, j, init, Serial(fs, calls, init).0, Serial(fs, calls, init).1, t);
      assert init + [t] == order;
    }
  }

  /** In a serial order where the rival succeeds the racer comes later and has the last word. */
  lemma SerialLeavesBackup(calls: seq<Call>, fs: Files, i: nat, j: nat, s: State, order: seq<nat>)
    requires Stage(calls, fs, i, j) && SerialAs(calls, fs, s, order) && s.pcs[j] == Done(Succeeded)
    ensures Look(s.files, Bak(calls[i].path)) == Some("a")
  {
    SerialTrack(calls, fs, i, j, order);
    assert i in order && j in order;
    var k :| 0 <= k < |order| && order[k] == j;
    assert s.pcs[order[k]] == Done(Serial(fs, calls, order).1[k]);
  }

  // ---- the run ----

  predicate RacerThrough(pc: Pc) { pc == Run(End(WriteFailed)) || pc.Unlock? || pc.Done? }

  ghost predicate RivalWinning(c: Call, pc: Pc, fs: Files, q: string)
  {
    match pc
    case Run(b) => Bound(c, b, fs, q)
    case Unlock(_, out) => out == Succeeded && Look(fs, q) == Some("y")
    case Done(out) => out == Succeeded && Look(fs, q) == Some("y")
    case _ => false
  }

  predicate IdleFine(c: Call, pc: Pc) { IsIdle(c) && (pc.Run? ==> IdleBody(c, pc.body)) }

  /** The racer is through, the rival on its way, the rest harmless. */
  ghost predicate Doomed(calls: seq<Call>, s: State, i: nat, j: nat, q: string)
    requires i < |calls| && j < |calls|
  {
    && |s.pcs| == |calls| && i != j && RacerThrough(s.pcs[i]) && RivalWinning(calls[j], s.pcs[j], s.files, q)
    && forall u :: 0 <= u < |calls| && u != i && u != j ==> IdleFine(calls[u], s.pcs[u])
  }

  lemma OthersStay(calls: seq<Call>, s: State, t: nat)
    requires |s.pcs| == |calls| && Enabled(calls, s, t)
    ensures |StepOf(calls, s, t).pcs| == |calls|
    ensures forall u :: 0 <= u < |calls| && u != t ==> StepOf(calls, s, t).pcs[u] == s.pcs[u]
  {
  }

  lemma RacerMoves(calls: seq<Call>, s: State, t: nat)
    requires |s.pcs| == |calls| && Enabled(calls, s, t) && RacerThrough(s.pcs[t])
    ensures StepOf(calls, s, t).files == s.files && RacerThrough(StepOf(calls, s, t).pcs[t])
  {
  }

  lemma RivalMoves(calls: seq<Call>, s: State, t: nat, q: string)
    requires |s.pcs| == |calls| && Enabled(calls, s, t) && RivalWinning(calls[t], s.pcs[t], s.files, q)
    ensures RivalWinning(calls[t], StepOf(calls, s, t).pcs[t], StepOf(calls, s, t).files, q)
  {
    if s.pcs[t].Run? && !s.pcs[t].body.End? { BodyStepOk(calls[t], s.pcs[t].body, s.files); }
  }

  lemma IdleMoves(calls: seq<Call>, s: State, t: nat)
    requires |s.pcs| == |calls| && Enabled(calls, s, t) && IdleFine(calls[t], s.pcs[t])
    ensures StepOf(calls, s, t).files == s.files && IdleFine(calls[t], StepOf(calls, s, t).pcs[t])
  {
    if s.pcs[t].Run? && !s.pcs[t].body.End? { IdleStep(calls[t], s.pcs[t].body, s.files); }
  }

  lemma DoomedStep(calls: seq<Call>, s: State, i: nat, j: nat, q: string, t: nat)
    requires i < |calls| && j < |calls| && Doomed(calls, s, i, j, q) && Enabled(calls, s, t)
    ensures Doomed(calls, StepOf(calls, s, t), i, j, q)
  {
    OthersStay(calls, s, t);
    if t == j {
      RivalMoves(calls, s, t, q);
    } else if t == i {
      RacerMoves(calls, s, t);
    } else {
      IdleMoves(calls, s, t);
    }
  }

  lemma {:induction false} DoomedRun(calls: seq<Call>, s: State, i: nat, j: nat, q: string) returns (s': State)
    requires i < |calls| && j < |calls| && LockInv(calls, s) && Doomed(calls, s, i, j, q)
    ensures Reaches(calls, s, s') && AllDone(calls, s')
    ensures s'.pcs[j] == Done(Succeeded) && Look(s'.files, q) == Some("y")
    decreases EditProgress.Measure(calls, s.pcs)
  {
    if AllDone(calls, s) {
      s' := s;
      ReachesSelf(calls, s);
      assert s.pcs[j] in s.pcs;
    } else {
      EditProgress.SomeoneCanStep(calls, s);
      var t :| Enabled(calls, s, t);
      DoomedStep(calls, s, i, j, q, t);
      EditProgress.StepDecreases(calls, s, t);
      StepLockInv(calls, s, t);
      ReachesStep(calls, s, t, StepOf(calls, s, t));
      s' := DoomedRun(calls, StepOf(calls, s, t), i, j, q);
      ReachesTrans(calls, s, StepOf(calls, s, t), s');
    }
  }

  /** A rival batch part-way through its reads. */
  ghost predicate Reading(c: Call, b: Body)
  {
    && c.Batch? && Suits(c, b) && b.MRead?
    && forall k :: 0 <= k < b.i ==> var p := c.multi.steps[k].path; p in b.saved && b.saved[p] == "x"
  }

  lemma ReadOne(c: Call, b: Body, fs: Files)
    requires IsRival(c) && Reading(c, b) && forall p <- CallTargets(c) :: Look(fs, p) == Some("x")
    ensures BodyStep(c, b, fs).1 == fs
    ensures b.i == |c.multi.steps| ==> Loaded(c, BodyStep(c, b, fs).0)
    ensures b.i < |c.multi.steps| ==> Reading(c, BodyStep(c, b, fs).0) && BodyStep(c, b, fs).0.i == b.i + 1
  {
    BodyStepOk(c, b, fs);
    OneChar('x', 'y');
    if b.i < |c.multi.steps| {
      var p := c.multi.steps[b.i].path;
      assert Targets(c.multi.steps)[b.i] == p && c.multi.steps[b.i] in c.multi.steps;
      assert p in CallTargets(c) && Look(fs, p) == Some("x");
      assert BodyStep(c, b, fs).0 == MRead(b.i + 1, b.saved[p := "x"]);
    }
  }

  /** The rival reads "x" in all its files. */
  lemma {:induction false} ReadOn(calls: seq<Call>, s: State, j: nat) returns (s': State)
    requires j < |calls| == |s.pcs| && IsRival(calls[j]) && s.pcs[j].Run? && Reading(calls[j], s.pcs[j].body)
    requires forall p <- CallTargets(calls[j]) :: Look(s.files, p) == Some("x")
    ensures Reaches(calls, s, s') && s' == s.(pcs := s'.pcs) && |s'.pcs| == |s.pcs|
    ensures s'.pcs[j].Run? && Loaded(calls[j], s'.pcs[j].body) && s'.pcs == s.pcs[j := s'.pcs[j]]
    decreases |calls[j].multi.steps| - s.pcs[j].body.i
  {
    var b := s.pcs[j].body;
    ReadOne(calls[j], b, s.files);
    var s1 := Advance(calls, s, j);
    if b.i == |calls[j].multi.steps| {
      s' := s1;
    } else {
      s' := ReadOn(calls, s1, j);
      ReachesTrans(calls, s, s1, s');
    }
  }

  lemma Load(calls: seq<Call>, s: State, j: nat) returns (s': State)
    requires j < |calls| == |s.pcs| && IsRival(calls[j]) && s.pcs[j] == Run(BodyStart(calls[j]))
    requires forall p <- CallTargets(calls[j]) :: Look(s.files, p) == Some("x")
    ensures Reaches(calls, s, s') && s' == s.(pcs := s'.pcs) && |s'.pcs| == |s.pcs|
    ensures s'.pcs[j].Run? && Loaded(calls[j], s'.pcs[j].body) && s'.pcs == s.pcs[j := s'.pcs[j]]
  {
    if calls[j].Single? {
      OneChar('x', 'y');
      assert calls[j].path in CallTargets(calls[j]);
      s' := Advance(calls, s, j);
    } else {
      s' := ReadOn(calls, s, j);
    }
  }

  /** The racer runs to the end of its body: it leaves its backup and no change. */
  lemma Race(calls: seq<Call>, s: State, i: nat) returns (s': State)
    requires i < |calls| == |s.pcs| && IsRacer(calls[i]) && s.pcs[i] == Run(SRead)
    requires Look(s.files, calls[i].path) == Some("a")
    ensures Reaches(calls, s, s') && s'.pcs == s.pcs[i := Run(End(WriteFailed))]
  {
    OneChar('a', 'b');
    var s1 := Advance(calls, s, i);
    var s2 := Advance(calls, s1, i);
    ReachesTrans(calls, s, s1, s2);
    s' := Advance(calls, s2, i);
    ReachesTrans(calls, s, s2, s');
  }

  lemma SetupRival(calls: seq<Call>, fs: Files, i: nat, j: nat) returns (s': State)
    requires Stage(calls, fs, i, j)
    ensures Reaches(calls, Init(calls, fs), s') && s'.files == fs && s'.registry.None? && Free(s', calls[i].path)
    ensures |s'.pcs| == |calls| && s'.pcs[j].Run? && Loaded(calls[j], s'.pcs[j].body)
    ensures forall u :: 0 <= u < |calls| && u != j ==> s'.pcs[u] == Want(0)
  {
    var s0 := Init(calls, fs);
    var s1 := Begin(calls, s0, j);
    assert calls[i].path !in Paths(calls[j]) && Free(s0, calls[i].path);
    s' := Load(calls, s1, j);
    ReachesTrans(calls, s0, s1, s');
  }

  lemma SetupRacer(calls: seq<Call>, s: State, i: nat) returns (s': State)
    requires i < |calls| == |s.pcs| && IsRacer(calls[i]) && s.pcs[i] == Want(0) && s.registry.None?
    requires Free(s, calls[i].path) && Look(s.files, calls[i].path) == Some("a")
    ensures Reaches(calls, s, s') && s'.pcs == s.pcs[i := Run(End(WriteFailed))]
  {
    assert forall r <- Paths(calls[i]) :: r in CallTargets(calls[i]) && r == calls[i].path;
    var s1 := Begin(calls, s, i);
    s' := Race(calls, s1, i);
    ReachesTrans(calls, s, s1, s');
  }

  /** The rival reads, then the racer runs; the rival has still to write. */
  lemma Setup(calls: seq<Call>, fs: Files, i: nat, j: nat) returns (s': State)
    requires Stage(calls, fs, i, j)
    ensures Reaches(calls, Init(calls, fs), s') && LockInv(calls, s') && Doomed(calls, s', i, j, Bak(calls[i].path))
  {
    var s1 := SetupRival(calls, fs, i, j);
    s' := SetupRacer(calls, s1, i);
    ReachesTrans(calls, Init(calls, fs), s1, s');
    InitLockInv(calls, fs);
    ReachesLockInv(calls, Init(calls, fs), s');
    LoadedWins(calls[j], s'.pcs[j].body, s'.files, Bak(calls[i].path));
  }

  lemma ReachesLockInv(calls: seq<Call>, s: State, s': State)
    requires LockInv(calls, s) && Reaches(calls, s, s')
    ensures LockInv(calls, s')
  {
    var sched :| Feasible(calls, s, sched) && Exec(calls, s, sched) == s';
    EditProgress.ExecLockInv(calls, s, sched);
  }

  // ---- the condition ----

  /** A finished run that no serial order explains. */
  lemma ClashBreaks(layout: seq<Call>, i: nat, j: nat) returns (calls: seq<Call>, fs: Files, sched: seq<nat>)
    requires i < |layout| && j < |layout| && BakClash(layout[i], layout[j])
    ensures SameLayout(calls, layout) && FinishedRun(calls, fs, sched) && !SerialResult(calls, fs, sched)
  {
    calls := Cast(layout, i, j);
    CastLayout(layout, i, j);
    fs := map p | p in CallTargets(calls[j]) + [calls[i].path] :: if p == calls[i].path then "a" else "x";
    assert Stage(calls, fs, i, j);
    var s1 := Setup(calls, fs, i, j);
    var s2 := DoomedRun(calls, s1, i, j, Bak(calls[i].path));
    ReachesTrans(calls, Init(calls, fs), s1, s2);
    sched :| Feasible(calls, Init(calls, fs), sched) && Exec(calls, Init(calls, fs), sched) == s2;
    forall order ensures !SerialAs(calls, fs, s2, order) {
      if SerialAs(calls, fs, s2, order) { SerialLeavesBackup(calls, fs, i, j, s2, order); }
    }
  }

  lemma LayoutDecides(calls: seq<Call>, layout: seq<Call>)
    requires SameLayout(calls, layout) && NoBakTargets(layout)
    ensures NoBakTargets(calls)
  {
    forall i, j | 0 <= i < |calls| && 0 <= j < |calls| ensures !BakClash(calls[i], calls[j]) {
      assert !BakClash(layout[i], layout[j]);
      assert calls[i].Single? ==> CallTargets(calls[i])[0] == CallTargets(layout[i])[0];
    }
  }

  /** The path locks make concurrent edits serializable, whatever the edits, the files, the schedule and
      the failures, exactly when no call targets the backup of a file that another edits without
      targeting that file as well: the backup is the one file an edit writes without locking it. */
  lemma SerializableIff(layout: seq<Call>)
    ensures AlwaysSerial(layout) <==> NoBakTargets(layout)
  {
    if NoBakTargets(layout) {
      forall calls, fs, sched | SameLayout(calls, layout) && FinishedRun(calls, fs, sched)
        ensures SerialResult(calls, fs, sched)
      {
        LayoutDecides(calls, layout);
        Serializable(calls, fs, sched);
        var s := Exec(calls, Init(calls, fs), sched);
        assert SerialAs(calls, fs, s, s.order);
      }
    } else {
      var i, j :| 0 <= i < |layout| && 0 <= j < |layout| && BakClash(layout[i], layout[j]);
      var calls, fs, sched := ClashBreaks(layout, i, j);
    }
  }
}
