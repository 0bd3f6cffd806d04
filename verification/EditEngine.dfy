/** The edit engine itself: read, validate, back up, write, lint, roll back. Each method runs with the
    path locks held (the locking protocol is module EditProtocol). */
module EditEngine {
  import opened Wrappers
  import opened Matching
  import opened EditCalls

  lemma WriteNext(fs: Files, steps: seq<Step>, i: nat, backups: map<string, string>)
    requires i < |steps| && steps[i].path in backups
    ensures var s := steps[i];
      var after := Write(fs, s.path, ReplaceFirst(backups[s.path], s.oldText, s.newText), s.write);
      WriteFrom(fs, steps, i, backups) ==
        if s.write == Wrote then WriteFrom(after, steps, i + 1, backups) else (after, MultiWriteFailed(i))
  {
  }

  /** The first `i` of `n` operations are reported written, the others not yet. */
  ghost predicate Reached(results: seq<OpResult>, i: nat, n: nat)
  {
    |results| == n && forall k :: 0 <= k < n ==> results[k] == if k < i then Result(true, false) else Missing
  }

  class Engine {
    var files: Files

    constructor (files: Files)
      ensures this.files == files
    {
      this.files := files;
    }

    method ReadFile(path: string, readable: bool) returns (r: Option<string>)
      ensures r == if readable && path in files then Some(files[path]) else None
    {
      r := if readable && path in files then Some(files[path]) else None;
    }

    method WriteFile(path: string, content: string, w: WriteResult) returns (ok: bool)
      modifies this
      ensures files == Write(old(files), path, content, w) && ok == (w == Wrote)
    {
      match w {
        case Wrote => files := files[path := content];
        case Denied =>
        case Torn(left) => files := files[path := left];
      }
      ok := w == Wrote;
    }

    method DeleteFile(path: string, done: bool)
      modifies this
      ensures files == Remove(old(files), path, done)
    {
      if done { files := files - {path}; }
    }

    method ApplyEdit(path: string, change: Change, env: Env) returns (o: Outcome)
      modifies this
      ensures (files, o) == SingleSpec(old(files), path, change, env)
    {
      if change.Patch? {
        o := ApplyUnifiedDiff(path, change.diff, env);
        return;
      }
      var existing := ReadFile(path, env.readable);
      if existing.None? { return ReadFailed; }
      var matchCount := Count(existing.value, change.oldText);
      if matchCount == 0 { return Refused(TextNotFound); }
      if matchCount != 1 { return Refused(TextAmbiguous(matchCount)); }
      var _ := WriteFile(Bak(path), existing.value, env.backup);
      var patched := ReplaceFirst(existing.value, change.oldText, change.newText);
      var ok := WriteFile(path, patched, env.write);
      if !ok { return WriteFailed; }
      o := LintOrRollBack(path, existing.value, env);
    }

    method ApplyUnifiedDiff(path: string, diff: ParsedDiff, env: Env) returns (o: Outcome)
      modifies this
      ensures (files, o) == SingleSpec(old(files), path, Patch(diff), env)
    {
      var existing := ReadFile(path, env.readable);
      if existing.None? { return ReadFailed; }
      if diff.ParseFailed? { return Refused(BadDiff); }
      if diff.NoFileDiffs? { return Refused(EmptyDiff); }
      var patched := Hunks.ApplyHunks(existing.value, diff.hunks);
      if patched.Err? { return Refused(HunkRejected(patched.error)); }
      var _ := WriteFile(Bak(path), existing.value, env.backup);
      var ok := WriteFile(path, patched.value, env.write);
      if !ok { return WriteFailed; }
      o := LintOrRollBack(path, existing.value, env);
    }

    /** The shared ending of both: lint, then drop the backup or restore the original. */
    method LintOrRollBack(path: string, existing: string, env: Env) returns (o: Outcome)
      modifies this
      ensures files == if env.lintClean then Remove(old(files), Bak(path), env.bakDeleted)
                       else Write(old(files), path, existing, env.restore)
      ensures o == if env.lintClean then Succeeded else if env.restore == Wrote then RolledBack else RollbackFailed
    {
      if !env.lintClean {
        var ok := WriteFile(path, existing, env.restore);
        return if ok then RolledBack else RollbackFailed;
      }
      DeleteFile(Bak(path), env.bakDeleted);
      o := Succeeded;
    }

    method ApplyMultiEdit(m: Multi) returns (o: Outcome, results: seq<OpResult>)
      modifies this
      ensures (files, o) == MultiSpec(old(files), m)
      ensures Reports(results, o, |m.steps|)
    {
      var backups;
      o, backups, results := ValidateAll(m);
      if o != Succeeded { return; }
      o, results := WriteAll(m, backups);
      if o != Succeeded { return; }
      var allClean, verdicts;
      allClean, verdicts, results := LintAll(m.steps, results);
      if !allClean {
        RollbackAll(m, backups);
        o := MultiLintFailed(verdicts);
        results := MarkRolledBack(results);
      }
    }

    /** Phase 1. */
    method ValidateAll(m: Multi) returns (o: Outcome, backups: Files, results: seq<OpResult>)
      modifies this
      ensures (backups, o) == ValidateFrom(old(files), m.steps, 0, map[])
      ensures files == if o == Succeeded then old(files) else RollbackFrom(old(files), m, backups, 0)
      ensures if o == Succeeded then forall s <- m.steps :: s.path in backups else Reports(results, o, |m.steps|)
    {
      o, backups, results := Succeeded, map[], seq(|m.steps|, _ => Missing);
      for i := 0 to |m.steps|
        invariant files == old(files) && o == Succeeded
        invariant ValidateFrom(files, m.steps, 0, map[]) == ValidateFrom(files, m.steps, i, backups)
        invariant Reached(results, 0, |m.steps|)
      {
        var s := m.steps[i];
        var existing := ReadFile(s.path, s.readable);
        if existing.None? {
          results := results[i := Result(false, false)];
          RollbackAll(m, backups);
          return MultiReadFailed(i), backups, results;
        }
        backups := backups[s.path := existing.value];
        var matchCount := Count(existing.value, s.oldText);
        if matchCount != 1 {
          results := results[i := Result(false, false)];
          RollbackAll(m, backups);
          return MultiNotUnique(i, matchCount), backups, results;
        }
      }
      AllSaved(files, m.steps);
    }

    /** Phase 2. */
    method WriteAll(m: Multi, backups: map<string, string>) returns (o: Outcome, results: seq<OpResult>)
      requires forall s <- m.steps :: s.path in backups
      modifies this
      ensures var (f2, o2) := WriteFrom(old(files), m.steps, 0, backups);
        o == o2 && files == if o2 == Succeeded then f2 else RollbackFrom(f2, m, backups, 0)
      ensures Reports(results, o, |m.steps|)
    {
      ghost var whole := WriteFrom(files, m.steps, 0, backups);
      results := seq(|m.steps|, _ => Missing);
      for i := 0 to |m.steps|
        invariant whole == WriteFrom(files, m.steps, i, backups)
        invariant Reached(results, i, |m.steps|)
      {
        var s := m.steps[i];
        WriteNext(files, m.steps, i, backups);
        var ok := WriteFile(s.path, ReplaceFirst(backups[s.path], s.oldText, s.newText), s.write);
        if !ok {
          results := results[i := Result(false, false)];
          RollbackAll(m, backups);
          return MultiWriteFailed(i), results;
        }
        results := results[i := Result(true, false)];
      }
      o := Succeeded;
    }

    /** Phase 3, over the results of a phase 2 that succeeded. */
    method LintAll(steps: seq<Step>, written: seq<OpResult>)
      returns (allClean: bool, verdicts: seq<bool>, results: seq<OpResult>)
      requires Reports(written, Succeeded, |steps|)
      ensures allClean == AllClean(steps) && verdicts == LintVerdicts(steps)
      ensures |results| == |steps| && forall k :: 0 <= k < |steps| ==> results[k] == Result(steps[k].lintClean, false)
    {
      allClean, verdicts, results := true, [], written;
      for i := 0 to |steps|
        invariant allClean <==> forall k :: 0 <= k < i ==> steps[k].lintClean
        invariant verdicts == LintVerdicts(steps)[..i]
        invariant |results| == |steps|
        invariant forall k :: 0 <= k < |steps| ==>
          results[k] == Result(if k < i then steps[k].lintClean else true, false)
      {
        if !steps[i].lintClean {
          allClean := false;
          results := results[i := Result(false, false)];
        }
        verdicts := verdicts + [steps[i].lintClean];
      }
    }

    static method MarkRolledBack(results: seq<OpResult>) returns (marked: seq<OpResult>)
      requires forall r <- results :: r.Result?
      ensures |marked| == |results|
      ensures forall k :: 0 <= k < |results| ==> marked[k] == results[k].(rolledBack := true)
    {
      marked := results;
      for i := 0 to |results|
        invariant |marked| == |results|
        invariant forall k :: 0 <= k < |results| ==>
          marked[k] == if k < i then results[k].(rolledBack := true) else results[k]
      {
        marked := marked[i := marked[i].(rolledBack := true)];
      }
    }

    method RollbackAll(m: Multi, backups: map<string, string>)
      modifies this
      ensures files == RollbackFrom(old(files), m, backups, 0)
    {
      for j := 0 to |m.order|
        invariant RollbackFrom(old(files), m, backups, 0) == RollbackFrom(files, m, backups, j)
      {
        if m.order[j] in backups {
          var _ := WriteFile(m.order[j], backups[m.order[j]], RestoreOf(m, m.order[j]));
        }
      }
    }
  }
}
