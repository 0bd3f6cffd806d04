/** All or nothing: what the edit transactions promise about the files they leave. */
module EditAtomicity {
  import opened Matching
  import opened EditCalls

  /** The iteration order visits every target path, and every rollback write succeeds. */
  ghost predicate RollbackWorks(m: Multi)
  {
    && (forall p <- Targets(m.steps) :: p in m.order)
    && (forall p <- m.order :: RestoreOf(m, p) == Wrote)
  }

  /** What operation `s` alone makes of its file. */
  function Edited(fs: Files, s: Step): string
  {
    if s.path in fs then ReplaceFirst(fs[s.path], s.oldText, s.newText) else ""
  }

  /** No later operation names the same path. */
  predicate IsLast(m: Multi, k: nat)
    requires k < |m.steps|
  {
    forall j :: k < j < |m.steps| ==> m.steps[j].path != m.steps[k].path
  }

  ghost predicate AppliedAt(fs: Files, fs': Files, s: Step)
  {
    s.path in fs && s.path in fs' && fs'[s.path] == Edited(fs, s)
  }

  /** No file but the named ones differs, and none appears or goes. */
  ghost predicate OnlyTargets(fs: Files, fs': Files, m: Multi)
  {
    fs'.Keys == fs.Keys && forall p <- fs :: p !in Targets(m.steps) ==> fs'[p] == fs[p]
  }

  /** `fs` with every operation's single replacement applied. */
  ghost predicate AllApplied(fs: Files, fs': Files, m: Multi)
  {
    OnlyTargets(fs, fs', m) && forall k :: 0 <= k < |m.steps| ==> AppliedAt(fs, fs', m.steps[k])
  }

  /** `fs` with the last operation on each path applied. */
  ghost predicate LastApplied(fs: Files, fs': Files, m: Multi)
  {
    OnlyTargets(fs, fs', m) && forall k :: 0 <= k < |m.steps| && IsLast(m, k) ==> AppliedAt(fs, fs', m.steps[k])
  }

  /** Operations on one path ask for the same text; so it is when no path is repeated. */
  ghost predicate RepeatsAgree(fs: Files, m: Multi)
  {
    forall i, j :: 0 <= i < j < |m.steps| && m.steps[i].path == m.steps[j].path ==>
      Edited(fs, m.steps[i]) == Edited(fs, m.steps[j])
  }

  /** A single edit succeeds exactly when the file can be read, the change applies, the write works and
      the lint is clean, and then only its file has changed, to the changed text (a backup that cannot be
      deleted stays). A refused edit changes nothing; a rolled-back one leaves the file as it was. A failed
      write is not rolled back, but whenever the backup was written the original is still in the file or
      in the backup. */
  lemma SingleEditOutcome(fs: Files, path: string, c: Change, env: Env)
    ensures var (fs', o) := SingleSpec(fs, path, c, env);
      && (o == Succeeded <==>
        env.readable && path in fs && PlanChange(fs[path], c).Proceed? && env.write == Wrote && env.lintClean)
      && (o == Succeeded ==>
        path in fs' && fs'[path] == PlanChange(fs[path], c).patched && (env.bakDeleted ==> Bak(path) !in fs'))
      && (o.ReadFailed? || o.Refused? ==> fs' == fs)
      && (o == RolledBack ==> path in fs' && fs'[path] == fs[path])
      && (o != Succeeded && path in fs && env.backup == Wrote ==>
            (path in fs' && fs'[path] == fs[path]) || (Bak(path) in fs' && fs'[Bak(path)] == fs[path]))
      && forall p :: p != path && p != Bak(path) ==> (p in fs' <==> p in fs) && (p in fs ==> fs'[p] == fs[p])
  {
    assert |Bak(path)| > |path|;
  }

  /** Rolling back puts back every saved file whose restoring writes work, whatever the order and whatever the other
      restores do, and touches no file that was not saved. */
  lemma {:induction false} RollbackRestores(fs: Files, m: Multi, saved: Files, j: nat)
    ensures var r := RollbackFrom(fs, m, saved, j);
      && (forall p :: p !in saved ==> (p in r <==> p in fs) && (p in fs ==> r[p] == fs[p]))
      && forall p <- saved | RestoreOf(m, p) == Wrote ::
           p in m.order[if j <= |m.order| then j else |m.order|..] || (p in fs && fs[p] == saved[p]) ==>
             p in r && r[p] == saved[p]
    decreases |m.order| - j
  {
    if j < |m.order| {
      var q := m.order[j];
      assert m.order[j..] == [q] + m.order[j + 1..];
      RollbackRestores(if q in saved then Write(fs, q, saved[q], RestoreOf(m, q)) else fs, m, saved, j + 1);
    }
  }

  /** Writes change targets only, in the order of the operations. */
  lemma {:induction false} WritesTouchTargets(fs: Files, steps: seq<Step>, i: nat, saved: Files)
    ensures var (f, o) := WriteFrom(fs, steps, i, saved);
      && (o == Succeeded <==> forall k :: i <= k < |steps| ==> steps[k].write == Wrote)
      && forall p :: p !in Targets(steps) ==> (p in f <==> p in fs) && (p in fs ==> f[p] == fs[p])
    decreases |steps| - i
  {
    if i < |steps| {
      var s := steps[i];
      assert Targets(steps)[i] == s.path;
      if s.write == Wrote { WritesTouchTargets(Write(fs, s.path, Replaced(s, saved), s.write), steps, i + 1, saved); }
    }
  }

  /** A path that no operation from `i` on names keeps its content. */
  lemma {:induction false} WritesPassBy(fs: Files, m: Multi, i: nat, saved: Files, p: string)
    requires WriteFrom(fs, m.steps, i, saved).1 == Succeeded
    requires forall k :: i <= k < |m.steps| ==> m.steps[k].path != p
    ensures var f := WriteFrom(fs, m.steps, i, saved).0; (p in f <==> p in fs) && (p in fs ==> f[p] == fs[p])
    decreases |m.steps| - i
  {
    if i < |m.steps| {
      var s := m.steps[i];
      WritesPassBy(Write(fs, s.path, Replaced(s, saved), s.write), m, i + 1, saved, p);
    }
  }

  /** Each path ends with the replacement of its last operation. */
  lemma {:induction false} WritesApply(fs: Files, m: Multi, i: nat, saved: Files, k: nat)
    requires WriteFrom(fs, m.steps, i, saved).1 == Succeeded && i <= k < |m.steps| && IsLast(m, k)
    ensures WrittenAt(WriteFrom(fs, m.steps, i, saved).0, saved, m.steps[k])
    decreases |m.steps| - i
  {
    var s := m.steps[i];
    var fs' := Write(fs, s.path, Replaced(s, saved), s.write);
    if i < k {
      WritesApply(fs', m, i + 1, saved, k);
    } else {
      WritesPassBy(fs', m, i + 1, saved, s.path);
    }
  }

  lemma RollbackGivesBack(fs: Files, f: Files, m: Multi, saved: Files)
    requires RollbackWorks(m)
    requires saved.Keys <= fs.Keys && forall p <- saved :: saved[p] == fs[p] && p in Targets(m.steps)
    requires forall p :: p !in saved ==> (p in f <==> p in fs) && (p in fs ==> f[p] == fs[p])
    ensures RollbackFrom(f, m, saved, 0) == fs
  {
    RollbackRestores(f, m, saved, 0);
    assert m.order[0..] == m.order;
    var r := RollbackFrom(f, m, saved, 0);
    forall p ensures (p in r <==> p in fs) && (p in fs ==> r[p] == fs[p]) {
      if p in saved { assert p in m.order; }
    }
  }

  /** A multi-edit whose rollback writes succeed is all or nothing over the whole file store, however it
      ends and in whatever order the backups are restored. It succeeds exactly when each operation is
      valid, written and clean; otherwise every file is as it was. On success the last operation on each
      path is applied, and with it every operation exactly when operations on one path agree. */
  lemma MultiEditAtomic(fs: Files, m: Multi)
    requires RollbackWorks(m)
    ensures var (fs', o) := MultiSpec(fs, m);
      && (o == Succeeded <==> forall k :: 0 <= k < |m.steps| ==>
           Valid(fs, m.steps[k]) && m.steps[k].write == Wrote && m.steps[k].lintClean)
      && (o != Succeeded ==> fs' == fs)
      && (o == Succeeded ==> LastApplied(fs, fs', m) && (AllApplied(fs, fs', m) <==> RepeatsAgree(fs, m)))
  {
    ValidateGathers(fs, m.steps, 0, map[]);
    var (saved, o1) := ValidateFrom(fs, m.steps, 0, map[]);
    if o1 != Succeeded {
      RollbackGivesBack(fs, fs, m, saved);
    } else {
      var (f2, o2) := WriteFrom(fs, m.steps, 0, saved);
      WritesTouchTargets(fs, m.steps, 0, saved);
      forall p <- Targets(m.steps) ensures p in saved {
        var k :| 0 <= k < |m.steps| && Targets(m.steps)[k] == p;
        assert m.steps[k].path in saved;
      }
      assert AllClean(m.steps) <==> forall k :: 0 <= k < |m.steps| ==> m.steps[k].lintClean;
      if o2 == Succeeded && AllClean(m.steps) {
        forall k | 0 <= k < |m.steps| && IsLast(m, k) ensures WrittenAt(f2, saved, m.steps[k]) {
          WritesApply(fs, m, 0, saved, k);
        }
        LastEverywhere(fs, f2, m, saved);
        AllAppliedIff(fs, f2, m);
      } else {
        RollbackGivesBack(fs, f2, m, saved);
      }
    }
  }

  ghost predicate WrittenAt(f: Files, saved: Files, s: Step)
  {
    s.path in f && f[s.path] == Replaced(s, saved)
  }

  lemma LastEverywhere(fs: Files, f: Files, m: Multi, saved: Files)
    requires forall k :: 0 <= k < |m.steps| ==> m.steps[k].path in saved && Valid(fs, m.steps[k])
    requires saved.Keys <= fs.Keys && forall p <- saved :: saved[p] == fs[p]
    requires forall k :: 0 <= k < |m.steps| && IsLast(m, k) ==> WrittenAt(f, saved, m.steps[k])
    requires forall p :: p !in Targets(m.steps) ==> (p in f <==> p in fs) && (p in fs ==> f[p] == fs[p])
    ensures LastApplied(fs, f, m)
  {
    forall p ensures p in f <==> p in fs {
      if p in Targets(m.steps) {
        var k :| 0 <= k < |m.steps| && Targets(m.steps)[k] == p;
        var l := LastOn(m, k);
        assert WrittenAt(f, saved, m.steps[l]);
      }
    }
  }

  /** The last operation on the path of operation `k`. */
  lemma LastOn(m: Multi, k: nat) returns (l: nat)
    requires k < |m.steps|
    ensures k <= l < |m.steps| && m.steps[l].path == m.steps[k].path && IsLast(m, l)
    decreases |m.steps| - k
  {
    if IsLast(m, k) {
      l := k;
    } else {
      var j :| k < j < |m.steps| && m.steps[j].path == m.steps[k].path;
      l := LastOn(m, j);
    }
  }

  lemma AllAppliedIff(fs: Files, f: Files, m: Multi)
    requires LastApplied(fs, f, m) && forall k :: 0 <= k < |m.steps| ==> m.steps[k].path in fs
    ensures AllApplied(fs, f, m) <==> RepeatsAgree(fs, m)
  {
    if AllApplied(fs, f, m) {
      assert forall k :: 0 <= k < |m.steps| ==> AppliedAt(fs, f, m.steps[k]);
    }
    if RepeatsAgree(fs, m) {
      forall k | 0 <= k < |m.steps| ensures AppliedAt(fs, f, m.steps[k]) {
        var l := LastOn(m, k);
        assert AppliedAt(fs, f, m.steps[l]);
      }
    }
  }

  /** Whatever batch names a path several times and succeeds, it keeps the last replacement only: every
      operation starts from the same saved content. */
  lemma RepeatedPathKeepsLast(fs: Files, m: Multi, k: nat)
    requires RollbackWorks(m) && MultiSpec(fs, m).1 == Succeeded && k < |m.steps| && IsLast(m, k)
    ensures m.steps[k].path in fs && m.steps[k].path in MultiSpec(fs, m).0
    ensures MultiSpec(fs, m).0[m.steps[k].path] ==
      ReplaceFirst(fs[m.steps[k].path], m.steps[k].oldText, m.steps[k].newText)
  {
    MultiEditAtomic(fs, m);
    assert AppliedAt(fs, MultiSpec(fs, m).0, m.steps[k]);
  }

  /** Two edits of the file "ab": "a" to "x", and "b" to "y". */
  function TwiceOneFile(): Multi
  {
    Multi([Step("f", "a", "x", true, Wrote, true), Step("f", "b", "y", true, Wrote, true)], ["f"], map[])
  }

  lemma MatchInTwo(x: char, y: char, z: char)
    requires x != y
    ensures Count([x, y], [x]) == 1 && ReplaceFirst([x, y], [x], [z]) == [z, y]
    ensures Count([x, y], [y]) == 1 && ReplaceFirst([x, y], [y], [z]) == [x, z]
  {
    var s := [x, y];
    assert OccursAt(s, [x], 0) && !OccursAt(s, [x], 1) && !OccursAt(s, [y], 0) && OccursAt(s, [y], 1);
    assert SoleMatch(s, [x], 0) && SoleMatch(s, [y], 1);
    CountOneMeans(s, [x]);
    CountOneMeans(s, [y]);
  }

  /** A batch that succeeds and loses an edit: "ab" becomes "ay". */
  lemma RepeatedPathLosesEdit()
    ensures var fs, m := map["f" := "ab"], TwiceOneFile();
      && MultiSpec(fs, m).1 == Succeeded && MultiSpec(fs, m).0 == map["f" := "ay"]
      && !AllApplied(fs, MultiSpec(fs, m).0, m)
  {
    var fs, m := map["f" := "ab"], TwiceOneFile();
    MatchInTwo('a', 'b', 'x');
    MatchInTwo('a', 'b', 'y');
    SucceedsAndDisagrees(fs, m, "ab", "xb", "ay");
  }

  lemma SucceedsAndDisagrees(fs: Files, m: Multi, old_: string, first: string, second: string)
    requires m == TwiceOneFile() && fs == map["f" := old_] && first != second
    requires Count(old_, "a") == 1 && Count(old_, "b") == 1
    requires ReplaceFirst(old_, "a", "x") == first && ReplaceFirst(old_, "b", "y") == second
    ensures MultiSpec(fs, m).1 == Succeeded && MultiSpec(fs, m).0 == map["f" := second]
    ensures !AllApplied(fs, MultiSpec(fs, m).0, m)
  {
    assert Targets(m.steps) == ["f", "f"];
    MultiEditAtomic(fs, m);
    var f := MultiSpec(fs, m).0;
    assert AppliedAt(fs, f, m.steps[1]);
    assert f == map["f" := second];
  }

  // ---- what the caller is told ----

  lemma {:induction false} FailsAtFirst(fs: Files, steps: seq<Step>, i: nat, saved: Files)
    ensures var o := WriteFrom(fs, steps, i, saved).1;
      o != Succeeded ==> o.MultiWriteFailed? && i <= o.op < |steps| && steps[o.op].write != Wrote
                         && forall j :: i <= j < o.op ==> steps[j].write == Wrote
    decreases |steps| - i
  {
    if i < |steps| && steps[i].write == Wrote {
      FailsAtFirst(Write(fs, steps[i].path, Replaced(steps[i], saved), Wrote), steps, i + 1, saved);
    }
  }

  lemma {:induction false} ValidateOutcome(fs: Files, steps: seq<Step>, i: nat, saved: Files)
    ensures var o := ValidateFrom(fs, steps, i, saved).1;
      o == Succeeded || o.MultiReadFailed? || o.MultiNotUnique?
    decreases |steps| - i
  {
    if i < |steps| && Valid(fs, steps[i]) {
      ValidateOutcome(fs, steps, i + 1, saved[steps[i].path := fs[steps[i].path]]);
    }
  }

  /** A batch fails at a write exactly when every operation is valid and some write fails, and then at
      the first. */
  lemma WriteFailure(fs: Files, m: Multi)
    ensures var o := MultiSpec(fs, m).1;
      && (o.MultiWriteFailed? <==> AllValid(fs, m) && exists j :: 0 <= j < |m.steps| && m.steps[j].write != Wrote)
      && (o.MultiWriteFailed? ==> o.op < |m.steps| && m.steps[o.op].write != Wrote
                                  && forall j :: 0 <= j < o.op ==> m.steps[j].write == Wrote)
  {
    ValidateGathers(fs, m.steps, 0, map[]);
    ValidateOutcome(fs, m.steps, 0, map[]);
    var (saved, o1) := ValidateFrom(fs, m.steps, 0, map[]);
    FailsAtFirst(fs, m.steps, 0, saved);
    WritesTouchTargets(fs, m.steps, 0, saved);
  }

  ghost predicate AllValid(fs: Files, m: Multi)
  {
    forall j :: 0 <= j < |m.steps| ==> Valid(fs, m.steps[j])
  }

  /** Every operation is valid and the writes go well up to the `k`-th, but a later one fails. */
  ghost predicate LaterWriteFails(fs: Files, m: Multi, k: nat)
  {
    && AllValid(fs, m)
    && (forall j :: 0 <= j <= k && j < |m.steps| ==> m.steps[j].write == Wrote)
    && exists j :: k < j < |m.steps| && m.steps[j].write != Wrote
  }

  /** A failed batch still reports an operation as a success, and not as rolled back, exactly when its
      write worked and a later write failed; its file is nevertheless as it was. */
  lemma StaleSuccessIff(fs: Files, m: Multi, k: nat)
    requires RollbackWorks(m) && k < |m.steps|
    ensures var (fs', o) := MultiSpec(fs, m);
      && (o != Succeeded && ResultOf(o, k) == Result(true, false) <==> LaterWriteFails(fs, m, k))
      && (LaterWriteFails(fs, m, k) ==> fs' == fs)
  {
    WriteFailure(fs, m);
    FailedRestores(fs, m);
  }

  lemma FailedRestores(fs: Files, m: Multi)
    requires RollbackWorks(m)
    ensures MultiSpec(fs, m).1 != Succeeded ==> MultiSpec(fs, m).0 == fs
  {
    MultiEditAtomic(fs, m);
  }
}
