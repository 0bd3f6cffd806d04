/** When a single edit succeeds, what it then leaves, and why it is refused, in terms of the file alone. */
module SingleEdit {
  import opened EditCalls
  import opened HunkReading
  import opened Hunks
  import opened Matching
  import opened Text

  /** The text at one place is replaced, the text on both sides is kept. */
  predicate ReplacedAt(before: string, old_: string, new_: string, i: int, after: string)
  {
    OccursAt(before, old_, i) && after == before[..i] + new_ + before[i + |old_|..]
  }

  /** A replacement succeeds exactly when the file can be read, the text to replace has a sole match, the write works
      and the lint is clean; then the file has the new text in place of that match and is otherwise as it was. */
  lemma ReplaceSucceedsIff(fs: Files, path: string, old_: string, new_: string, env: Env)
    ensures var (fs', o) := SingleSpec(fs, path, Replace(old_, new_), env);
      && (o == Succeeded <==>
            && env.readable && path in fs && (exists i :: SoleMatch(fs[path], old_, i))
            && env.write == Wrote && env.lintClean)
      && (o == Succeeded ==> path in fs' && exists i ::
            SoleMatch(fs[path], old_, i) && ReplacedAt(fs[path], old_, new_, i, fs'[path]))
  {
    if env.readable && path in fs {
      CountOneMeans(fs[path], old_);
      assert |Bak(path)| > |path|;
      if i :| SoleMatch(fs[path], old_, i) { ReplaceFirstAt(fs[path], old_, new_, i); }
    }
  }

  /** A readable file is left alone, and the edit refused, exactly when the text has no match, which is said so, or
      when several matches stand side by side, whose largest number is told. */
  lemma ReplaceRefusedIff(fs: Files, path: string, old_: string, new_: string, env: Env, k: nat)
    requires env.readable && path in fs
    ensures var (fs', o) := SingleSpec(fs, path, Replace(old_, new_), env);
      && (o == Refused(TextNotFound) <==> forall i :: !OccursAt(fs[path], old_, i))
      && (o == Refused(TextAmbiguous(k)) <==> k >= 2 && Most(fs[path], old_, k))
      && (o.Refused? <==> !exists i :: SoleMatch(fs[path], old_, i))
      && (o.Refused? ==> fs' == fs)
  {
    var s := fs[path];
    CountOneMeans(s, old_);
    CountIsMost(s, old_);
    if Most(s, old_, k) { MostIsOne(s, old_, k, Count(s, old_)); }
    NoneIffZero(s, old_);
  }

  lemma NoneIffZero(s: string, sub: string)
    ensures Count(s, sub) == 0 <==> forall i :: !OccursAt(s, sub, i)
  {
    if sub == "" {
      assert OccursAt(s, sub, 0);
    } else {
      CountFromZero(s, sub, 0);
    }
  }

  /** `after` is `before` under one edit script of these hunks. */
  ghost predicate ScriptOf(before: string, hunks: seq<Hunk>, e: seq<Edit>, after: string)
  {
    && Before(e) == SplitAfter(before) && Join(Before(e)) == before && Join(After(e)) == after
    && Inserted(e) == AllAdditions(hunks) && SameUpToEnding(Dropped(e), AllDeletions(hunks))
  }

  /** A parsed diff is applied exactly when the file can be read, its hunks are well placed in it, the write works
      and the lint is clean; then the file is the result of one edit script that drops the deleted and inserts the
      added lines. */
  lemma PatchSucceedsIff(fs: Files, path: string, hunks: seq<Hunk>, env: Env)
    ensures var (fs', o) := SingleSpec(fs, path, Patch(FirstFile(hunks)), env);
      && (o == Succeeded <==>
            && env.readable && path in fs && WellPlaced(SplitAfter(fs[path]), 0, hunks)
            && env.write == Wrote && env.lintClean)
      && (o == Succeeded ==> path in fs' && exists e :: ScriptOf(fs[path], hunks, e, fs'[path]))
      && (env.readable && path in fs ==> (o.Refused? <==> !WellPlaced(SplitAfter(fs[path]), 0, hunks)))
      && (o.Refused? ==> fs' == fs)
  {
    if env.readable && path in fs {
      var before := fs[path];
      HunksAcceptedIff(SplitAfter(before), 0, hunks);
      assert |Bak(path)| > |path|;
      if ApplyHunksSpec(before, hunks).Ok? { Scripted(before, hunks); }
    }
  }

  lemma Scripted(before: string, hunks: seq<Hunk>)
    requires ApplyHunksSpec(before, hunks).Ok?
    ensures exists e :: ScriptOf(before, hunks, e, ApplyHunksSpec(before, hunks).value)
  {
    AcceptedHunksAreAnEdit(before, hunks);
    var e: seq<Edit> :|
      && Join(Before(e)) == before && Join(After(e)) == ApplyHunksSpec(before, hunks).value
      && Before(e) == SplitAfter(before)
      && Inserted(e) == AllAdditions(hunks) && SameUpToEnding(Dropped(e), AllDeletions(hunks))
      && |After(e)| == |Before(e)| - |AllDeletions(hunks)| + |AllAdditions(hunks)|;
    assert ScriptOf(before, hunks, e, ApplyHunksSpec(before, hunks).value);
  }

  /** After a parsed diff has been applied the file is its old lines with, in place of those each hunk stands for, that
      hunk's context and added lines in order. */
  lemma PatchLands(fs: Files, path: string, hunks: seq<Hunk>, env: Env)
    requires SingleSpec(fs, path, Patch(FirstFile(hunks)), env).1 == Succeeded
    ensures var lines, fs' := SplitAfter(fs[path]), SingleSpec(fs, path, Patch(FirstFile(hunks)), env).0;
      && WellPlaced(lines, 0, hunks) && path in fs'
      && exists pieces: seq<seq<string>> ::
           && |pieces| == |hunks| && PiecesRead(lines, hunks, pieces)
           && fs'[path] == Join(Woven(lines, 0, hunks, pieces))
  {
    PatchSucceedsIff(fs, path, hunks, env);
    HunksLand(fs[path], hunks);
    SingleSucceeds(fs, path, Patch(FirstFile(hunks)), env);
  }

  lemma SingleSucceeds(fs: Files, path: string, c: Change, env: Env)
    requires var o := SingleSpec(fs, path, c, env).1; o == Succeeded
    ensures path in fs && path in SingleSpec(fs, path, c, env).0
    ensures PlanChange(fs[path], c) == Proceed(SingleSpec(fs, path, c, env).0[path])
  {
    assert |Bak(path)| > |path|;
  }

  /** It is refused with the error of the first hunk that is misplaced or has a line that does not match, exactly when
      there is one. */
  lemma PatchRefusedFor(fs: Files, path: string, hunks: seq<Hunk>, env: Env, e: HunkError)
    requires env.readable && path in fs
    ensures SingleSpec(fs, path, Patch(FirstFile(hunks)), env).1 == Refused(HunkRejected(e)) <==>
      exists i: nat :: RejectedAt(SplitAfter(fs[path]), 0, hunks, i, e)
  {
    var lines := SplitAfter(fs[path]);
    HunksErrorIff(lines, 0, hunks, e);
    RefusalOf(fs, path, hunks, env, e);
  }

  lemma RefusalOf(fs: Files, path: string, hunks: seq<Hunk>, env: Env, e: HunkError)
    requires env.readable && path in fs
    ensures SingleSpec(fs, path, Patch(FirstFile(hunks)), env).1 == Refused(HunkRejected(e)) <==>
      PatchFrom(SplitAfter(fs[path]), 0, hunks) == Err(e)
  {
  }

  /** A diff that cannot be parsed, or names no file, is refused for that reason. */
  lemma UnusableDiffs(fs: Files, path: string, env: Env)
    requires env.readable && path in fs
    ensures SingleSpec(fs, path, Patch(ParseFailed), env) == (fs, Refused(BadDiff))
    ensures SingleSpec(fs, path, Patch(NoFileDiffs), env) == (fs, Refused(EmptyDiff))
  {
  }

  /** The file can be read and takes the change. */
  ghost predicate Takes(fs: Files, path: string, c: Change, env: Env)
  {
    && env.readable && path in fs
    && match c
       case Replace(old_, _) => exists i :: SoleMatch(fs[path], old_, i)
       case Patch(d) => d.FirstFile? && WellPlaced(SplitAfter(fs[path]), 0, d.hunks)
  }

  lemma TakesIff(fs: Files, path: string, c: Change, env: Env)
    ensures Takes(fs, path, c, env) <==> env.readable && path in fs && PlanChange(fs[path], c).Proceed?
  {
    if env.readable && path in fs {
      match c
      case Replace(old_, _) => CountOneMeans(fs[path], old_);
      case Patch(d) => if d.FirstFile? { HunksAcceptedIff(SplitAfter(fs[path]), 0, d.hunks); }
    }
  }

  /** Past the change, what is told is which access failed: the write, or the lint and then perhaps the restoring
      write. A lint failure leaves what the restoring write leaves. */
  lemma FailureIs(fs: Files, path: string, c: Change, env: Env)
    ensures var (fs', o) := SingleSpec(fs, path, c, env);
      && (o == ReadFailed <==> !(env.readable && path in fs))
      && (o == WriteFailed <==> Takes(fs, path, c, env) && env.write != Wrote)
      && (o == RolledBack <==>
            Takes(fs, path, c, env) && env.write == Wrote && !env.lintClean && env.restore == Wrote)
      && (o == RollbackFailed <==>
            Takes(fs, path, c, env) && env.write == Wrote && !env.lintClean && env.restore != Wrote)
      && (o == WriteFailed && env.write.Torn? ==> path in fs' && fs'[path] == env.write.left)
      && (o == WriteFailed && env.write.Denied? ==> path in fs' && fs'[path] == fs[path])
      && (o == RollbackFailed && env.restore.Torn? ==> path in fs' && fs'[path] == env.restore.left)
  {
    TakesIff(fs, path, c, env);
    assert |Bak(path)| > |path|;
  }

  /** The backup: not touched by a refused edit; else written before the file, left in place when the edit fails, and
      deleted, if that works, when it succeeds. */
  lemma BackupIs(fs: Files, path: string, c: Change, env: Env)
    ensures var (fs', o) := SingleSpec(fs, path, c, env);
      var b := Bak(path);
      && (o != Succeeded && Takes(fs, path, c, env) ==> match env.backup
            case Wrote => b in fs' && fs'[b] == fs[path]
            case Torn(left) => b in fs' && fs'[b] == left
            case Denied => (b in fs' <==> b in fs) && (b in fs ==> fs'[b] == fs[b]))
      && (o == Succeeded && env.bakDeleted ==> b !in fs')
      && (o == Succeeded && !env.bakDeleted && env.backup == Wrote ==> b in fs' && fs'[b] == fs[path])
  {
    TakesIff(fs, path, c, env);
    assert |Bak(path)| > |path|;
  }
}
