/** An edit call between taking its locks and releasing them, one file access at a time, and the proof
    that running those steps undisturbed is the transaction of EditCalls. */
module EditBody {
  import opened EditCalls
  import opened Matching
  import opened Wrappers

  datatype Body =
    | SRead
    | SBackup(existing: string, patched: string)
    | SWrite(existing: string, patched: string)
    | SLint(existing: string)
    | SRestore(existing: string)
    | SDrop
    | MRead(i: nat, saved: Files)
    | MWrite(i: nat, saved: Files)
    | MLint(i: nat, saved: Files)
    | MRestore(j: nat, saved: Files, out: Outcome)
    | End(outcome: Outcome)

  function BodyStart(c: Call): Body
  {
    if c.Single? then SRead else MRead(0, map[])
  }

  predicate SavedOk(m: Multi, saved: Files)
  {
    forall p <- saved :: p in Targets(m.steps)
  }

  /** The program points of a call. */
  predicate Suits(c: Call, b: Body)
  {
    match b
    case SRead => c.Single?
    case SBackup(_, _) => c.Single?
    case SWrite(_, _) => c.Single?
    case SLint(_) => c.Single?
    case SRestore(_) => c.Single?
    case SDrop => c.Single?
    case MRead(i, saved) => c.Batch? && i <= |c.multi.steps| && SavedOk(c.multi, saved)
    case MWrite(i, saved) => c.Batch? && i <= |c.multi.steps| && SavedOk(c.multi, saved)
    case MLint(i, saved) => c.Batch? && i <= |c.multi.steps| && SavedOk(c.multi, saved)
    case MRestore(j, saved, _) => c.Batch? && j <= |c.multi.order| && SavedOk(c.multi, saved)
    case End(_) => true
  }

  /** One step: at most one file is read or written. */
  function BodyStep(c: Call, b: Body, fs: Files): (Body, Files)
    requires Suits(c, b) && !b.End?
  {
    match b
    case SRead =>
      if !c.env.readable || c.path !in fs then (End(ReadFailed), fs)
      else
        (match PlanChange(fs[c.path], c.change)
         case Refuse(why) => (End(Refused(why)), fs)
         case Proceed(patched) => (SBackup(fs[c.path], patched), fs))
    case SBackup(e, p) => (SWrite(e, p), Write(fs, Bak(c.path), e, c.env.backup))
    case SWrite(e, p) =>
      (if c.env.write == Wrote then SLint(e) else End(WriteFailed), Write(fs, c.path, p, c.env.write))
    case SLint(e) => (if c.env.lintClean then SDrop else SRestore(e), fs)
    case SRestore(e) =>
      (End(if c.env.restore == Wrote then RolledBack else RollbackFailed), Write(fs, c.path, e, c.env.restore))
    case SDrop => (End(Succeeded), Remove(fs, Bak(c.path), c.env.bakDeleted))
    case MRead(i, saved) =>
      if i == |c.multi.steps| then (MWrite(0, saved), fs)
      else
        var s := c.multi.steps[i];
        if !s.readable || s.path !in fs then (MRestore(0, saved, MultiReadFailed(i)), fs)
        else
          var saved' := saved[s.path := fs[s.path]];
          var count := Count(fs[s.path], s.oldText);
          if count != 1 then (MRestore(0, saved', MultiNotUnique(i, count)), fs)
          else (MRead(i + 1, saved'), fs)
    case MWrite(i, saved) =>
      if i == |c.multi.steps| then (MLint(0, saved), fs)
      else
        var s := c.multi.steps[i];
        (if s.write == Wrote then MWrite(i + 1, saved) else MRestore(0, saved, MultiWriteFailed(i)),
         Write(fs, s.path, Replaced(s, saved), s.write))
    case MLint(i, saved) =>
      if i < |c.multi.steps| then (MLint(i + 1, saved), fs)
      else if AllClean(c.multi.steps) then (End(Succeeded), fs)
      else (MRestore(0, saved, MultiLintFailed(LintVerdicts(c.multi.steps))), fs)
    case MRestore(j, saved, out) =>
      if j == |c.multi.order| then (End(out), fs)
      else
        var p := c.multi.order[j];
        (MRestore(j + 1, saved, out), if p in saved then Write(fs, p, saved[p], RestoreOf(c.multi, p)) else fs)
  }

  /** Steps a body still has to take, at most. */
  function Rank(c: Call, b: Body): nat
    requires Suits(c, b)
  {
    match b
    case SRead => 5
    case SBackup(_, _) => 4
    case SWrite(_, _) => 3
    case SLint(_) => 2
    case SRestore(_) => 1
    case SDrop => 1
    case MRestore(j, _, _) => |c.multi.order| - j + 1
    case MLint(i, _) => |c.multi.order| + 2 + |c.multi.steps| - i
    case MWrite(i, _) => |c.multi.order| + 2 + |c.multi.steps| + 1 + |c.multi.steps| - i
    case MRead(i, _) => |c.multi.order| + 2 + 2 * |c.multi.steps| + 2 + |c.multi.steps| - i
    case End(_) => 0
  }

  lemma BodyStepOk(c: Call, b: Body, fs: Files)
    requires Suits(c, b) && !b.End?
    ensures Suits(c, BodyStep(c, b, fs).0) && Rank(c, BodyStep(c, b, fs).0) < Rank(c, b)
  {
    if b.MRead? && b.i < |c.multi.steps| {
      assert Targets(c.multi.steps)[b.i] == c.multi.steps[b.i].path;
    }
  }

  /** The rest of a body, undisturbed. */
  function RunBody(c: Call, b: Body, fs: Files): (Files, Outcome)
    requires Suits(c, b)
    decreases Rank(c, b)
  {
    if b.End? then (fs, b.outcome)
    else
      var (b', fs') := BodyStep(c, b, fs);
      BodyStepOk(c, b, fs);
      RunBody(c, b', fs')
  }

  // ---- the small steps add up to the transaction ----

  lemma {:induction false} RunRestore(c: Call, j: nat, saved: Files, out: Outcome, fs: Files)
    requires c.Batch? && j <= |c.multi.order| && SavedOk(c.multi, saved)
    ensures RunBody(c, MRestore(j, saved, out), fs) == (RollbackFrom(fs, c.multi, saved, j), out)
    decreases |c.multi.order| - j
  {
    if j < |c.multi.order| {
      RunRestore(c, j + 1, saved, out, BodyStep(c, MRestore(j, saved, out), fs).1);
    }
  }

  lemma {:induction false} RunLint(c: Call, i: nat, saved: Files, fs: Files)
    requires c.Batch? && i <= |c.multi.steps| && SavedOk(c.multi, saved)
    ensures RunBody(c, MLint(i, saved), fs) ==
      if AllClean(c.multi.steps) then (fs, Succeeded)
      else (RollbackFrom(fs, c.multi, saved, 0), MultiLintFailed(LintVerdicts(c.multi.steps)))
    decreases |c.multi.steps| - i
  {
    if i < |c.multi.steps| {
      RunLint(c, i + 1, saved, fs);
    } else if !AllClean(c.multi.steps) {
      RunRestore(c, 0, saved, MultiLintFailed(LintVerdicts(c.multi.steps)), fs);
    }
  }

  lemma {:induction false} RunWrite(c: Call, i: nat, saved: Files, fs: Files)
    requires c.Batch? && i <= |c.multi.steps| && SavedOk(c.multi, saved)
    ensures RunBody(c, MWrite(i, saved), fs) ==
      var (f2, o2) := WriteFrom(fs, c.multi.steps, i, saved);
      if o2 != Succeeded then (RollbackFrom(f2, c.multi, saved, 0), o2)
      else if AllClean(c.multi.steps) then (f2, Succeeded)
      else (RollbackFrom(f2, c.multi, saved, 0), MultiLintFailed(LintVerdicts(c.multi.steps)))
    decreases |c.multi.steps| - i
  {
    if i == |c.multi.steps| {
      RunLint(c, 0, saved, fs);
    } else {
      var (b', fs') := BodyStep(c, MWrite(i, saved), fs);
      if c.multi.steps[i].write == Wrote {
        RunWrite(c, i + 1, saved, fs');
      } else {
        RunRestore(c, 0, saved, MultiWriteFailed(i), fs');
      }
    }
  }

  lemma {:induction false} RunRead(c: Call, i: nat, saved: Files, fs: Files)
    requires c.Batch? && i <= |c.multi.steps| && SavedOk(c.multi, saved)
    ensures RunBody(c, MRead(i, saved), fs) ==
      var (saved', o) := ValidateFrom(fs, c.multi.steps, i, saved);
      if o != Succeeded then (RollbackFrom(fs, c.multi, saved', 0), o) else RunAfterRead(c, saved', fs)
    decreases |c.multi.steps| - i
  {
    if i == |c.multi.steps| {
      RunWrite(c, 0, saved, fs);
    } else {
      var s := c.multi.steps[i];
      BodyStepOk(c, MRead(i, saved), fs);
      var b' := BodyStep(c, MRead(i, saved), fs).0;
      if b'.MRestore? {
        RunRestore(c, 0, b'.saved, b'.out, fs);
      } else {
        RunRead(c, i + 1, b'.saved, fs);
      }
    }
  }

  function RunAfterRead(c: Call, saved: Files, fs: Files): (Files, Outcome)
    requires c.Batch?
  {
    var (f2, o2) := WriteFrom(fs, c.multi.steps, 0, saved);
    if o2 != Succeeded then (RollbackFrom(f2, c.multi, saved, 0), o2)
    else if AllClean(c.multi.steps) then (f2, Succeeded)
    else (RollbackFrom(f2, c.multi, saved, 0), MultiLintFailed(LintVerdicts(c.multi.steps)))
  }

  lemma RunSingle(c: Call, fs: Files)
    requires c.Single?
    ensures RunBody(c, SRead, fs) == SingleSpec(fs, c.path, c.change, c.env)
  {
    var (b1, f1) := BodyStep(c, SRead, fs);
    if !b1.End? {
      var (b2, f2) := BodyStep(c, b1, f1);
      var (b3, f3) := BodyStep(c, b2, f2);
      if !b3.End? {
        var (b4, f4) := BodyStep(c, b3, f3);
        var (b5, f5) := BodyStep(c, b4, f4);
        assert RunBody(c, b3, f3) == RunBody(c, b4, f4) == RunBody(c, b5, f5) == (f5, b5.outcome);
      }
      assert RunBody(c, SRead, fs) == RunBody(c, b1, f1) == RunBody(c, b2, f2) == RunBody(c, b3, f3);
    }
  }

  /** Run alone, a call's steps are its transaction. */
  lemma RunIsSpec(c: Call, fs: Files)
    ensures RunBody(c, BodyStart(c), fs) == CallSpec(fs, c)
  {
    match c
    case Single(_, _, _) => RunSingle(c, fs);
    case Batch(m) => RunRead(c, 0, map[], fs);
  }

  // ---- locality ----

  function Look(fs: Files, p: string): Option<string>
  {
    if p in fs then Some(fs[p]) else None
  }

  /** The files a call may touch: its targets, and the backup of a single edit. */
  function Foot(c: Call): set<string>
  {
    (set p | p in CallTargets(c)) + (if c.Single? then {Bak(c.path)} else {})
  }

  ghost predicate AgreeOn(fs: Files, gs: Files, s: set<string>)
  {
    forall p <- s :: Look(fs, p) == Look(gs, p)
  }

  /** Outside `s` nothing changed. */
  ghost predicate SameOutside(fs: Files, gs: Files, s: set<string>)
  {
    forall p :: p !in s ==> Look(fs, p) == Look(gs, p)
  }

  lemma WriteLocal(fs: Files, gs: Files, s: set<string>, p: string, content: string, w: WriteResult)
    requires p in s && AgreeOn(fs, gs, s)
    ensures AgreeOn(Write(fs, p, content, w), Write(gs, p, content, w), s)
      && SameOutside(fs, Write(fs, p, content, w), s)
  {
  }

  lemma StepLocal(c: Call, b: Body, fs: Files, gs: Files)
    requires Suits(c, b) && !b.End? && AgreeOn(fs, gs, Foot(c))
    ensures BodyStep(c, b, fs).0 == BodyStep(c, b, gs).0
    ensures AgreeOn(BodyStep(c, b, fs).1, BodyStep(c, b, gs).1, Foot(c))
    ensures SameOutside(fs, BodyStep(c, b, fs).1, Foot(c))
  {
    var f := Foot(c);
    match b
    case SRead => assert c.path in CallTargets(c); assert Look(fs, c.path) == Look(gs, c.path);
    case SBackup(e, p) => WriteLocal(fs, gs, f, Bak(c.path), e, c.env.backup);
    case SWrite(e, p) => assert c.path in CallTargets(c); WriteLocal(fs, gs, f, c.path, p, c.env.write);
    case SLint(e) =>
    case SRestore(e) => assert c.path in CallTargets(c); WriteLocal(fs, gs, f, c.path, e, c.env.restore);
    case SDrop => assert Bak(c.path) in f;
    case MRead(i, saved) =>
      if i < |c.multi.steps| {
        assert Targets(c.multi.steps)[i] == c.multi.steps[i].path;
        assert Look(fs, c.multi.steps[i].path) == Look(gs, c.multi.steps[i].path);
      }
    case MWrite(i, saved) =>
      if i < |c.multi.steps| {
        var s := c.multi.steps[i];
        assert Targets(c.multi.steps)[i] == s.path;
        WriteLocal(fs, gs, f, s.path, Replaced(s, saved), s.write);
      }
    case MLint(i, saved) =>
    case MRestore(j, saved, out) =>
      if j < |c.multi.order| && c.multi.order[j] in saved {
        WriteLocal(fs, gs, f, c.multi.order[j], saved[c.multi.order[j]], RestoreOf(c.multi, c.multi.order[j]));
      }
  }

  /** A body reads and writes its own files only. */
  lemma {:induction false} RunLocal(c: Call, b: Body, fs: Files, gs: Files)
    requires Suits(c, b) && AgreeOn(fs, gs, Foot(c))
    ensures RunBody(c, b, fs).1 == RunBody(c, b, gs).1
    ensures AgreeOn(RunBody(c, b, fs).0, RunBody(c, b, gs).0, Foot(c))
    ensures SameOutside(fs, RunBody(c, b, fs).0, Foot(c))
    decreases Rank(c, b)
  {
    if !b.End? {
      var (b', fs') := BodyStep(c, b, fs);
      BodyStepOk(c, b, fs);
      StepLocal(c, b, fs, gs);
      RunLocal(c, b', fs', BodyStep(c, b, gs).1);
    }
  }
}
