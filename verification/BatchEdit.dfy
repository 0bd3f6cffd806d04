/** What a multi-edit reports and what it leaves of each file, from the operations and the files alone. */
module BatchEdit {
  import opened EditAtomicity
  import opened EditCalls
  import opened Matching

  predicate Readable(fs: Files, s: Step) { s.readable && s.path in fs }

  /** The operation's file can be read and its text has a sole match there. */
  ghost predicate Acceptable(fs: Files, s: Step)
  {
    Readable(fs, s) && exists i :: SoleMatch(fs[s.path], s.oldText, i)
  }

  ghost predicate AcceptableUpTo(fs: Files, m: Multi, n: nat)
  {
    forall j :: 0 <= j < n && j < |m.steps| ==> Acceptable(fs, m.steps[j])
  }

  predicate WrittenUpTo(m: Multi, n: nat)
  {
    forall j :: 0 <= j < n && j < |m.steps| ==> m.steps[j].write == Wrote
  }

  /** Operation `k` is the first whose file cannot be read, or whose text has no sole match in it. */
  ghost predicate FirstUnfit(fs: Files, m: Multi, k: nat)
  {
    k < |m.steps| && AcceptableUpTo(fs, m, k) && !Acceptable(fs, m.steps[k])
  }

  /** All operations are acceptable, and the write of the `k`-th is the first to fail. */
  ghost predicate FirstUnwritten(fs: Files, m: Multi, k: nat)
  {
    AcceptableUpTo(fs, m, |m.steps|) && k < |m.steps| && WrittenUpTo(m, k) && m.steps[k].write != Wrote
  }

  /** Everything is acceptable and written, but some lint is not clean. */
  ghost predicate OnlyLintFails(fs: Files, m: Multi)
  {
    && AcceptableUpTo(fs, m, |m.steps|) && WrittenUpTo(m, |m.steps|)
    && exists j :: 0 <= j < |m.steps| && !m.steps[j].lintClean
  }

  lemma ValidIsAcceptable(fs: Files, s: Step)
    ensures Valid(fs, s) <==> Acceptable(fs, s)
  {
    if Readable(fs, s) { CountOneMeans(fs[s.path], s.oldText); }
  }

  lemma {:induction false} ValidatesTo(fs: Files, m: Multi, i: nat, saved: Files, k: nat)
    requires i <= k < |m.steps| && !Valid(fs, m.steps[k]) && forall j :: i <= j < k ==> Valid(fs, m.steps[j])
    ensures ValidateFrom(fs, m.steps, i, saved).1 ==
      if Readable(fs, m.steps[k]) then MultiNotUnique(k, Count(fs[m.steps[k].path], m.steps[k].oldText))
      else MultiReadFailed(k)
    decreases k - i
  {
    if i < k { ValidatesTo(fs, m, i + 1, saved[m.steps[i].path := fs[m.steps[i].path]], k); }
  }

  lemma {:induction false} WritesTo(fs: Files, m: Multi, i: nat, saved: Files, k: nat)
    requires i <= k < |m.steps| && m.steps[k].write != Wrote && forall j :: i <= j < k ==> m.steps[j].write == Wrote
    ensures WriteFrom(fs, m.steps, i, saved).1 == MultiWriteFailed(k)
    decreases k - i
  {
    if i < k { WritesTo(Write(fs, m.steps[i].path, Replaced(m.steps[i], saved), Wrote), m, i + 1, saved, k); }
  }

  ghost predicate AllWell(fs: Files, m: Multi)
  {
    && AcceptableUpTo(fs, m, |m.steps|) && WrittenUpTo(m, |m.steps|)
    && forall j :: 0 <= j < |m.steps| ==> m.steps[j].lintClean
  }

  lemma {:induction false} FindUnfit(fs: Files, m: Multi, i: nat) returns (k: nat)
    requires i <= |m.steps| && AcceptableUpTo(fs, m, i)
    ensures FirstUnfit(fs, m, k) || AcceptableUpTo(fs, m, |m.steps|)
    decreases |m.steps| - i
  {
    k := i;
    if i < |m.steps| && Acceptable(fs, m.steps[i]) { k := FindUnfit(fs, m, i + 1); }
  }

  lemma {:induction false} FindUnwritten(m: Multi, i: nat) returns (k: nat)
    requires i <= |m.steps| && WrittenUpTo(m, i)
    ensures (k < |m.steps| && WrittenUpTo(m, k) && m.steps[k].write != Wrote) || WrittenUpTo(m, |m.steps|)
    decreases |m.steps| - i
  {
    k := i;
    if i < |m.steps| && m.steps[i].write == Wrote { k := FindUnwritten(m, i + 1); }
  }

  lemma ValidUpTo(fs: Files, m: Multi, n: nat)
    ensures AcceptableUpTo(fs, m, n) <==> forall j :: 0 <= j < n && j < |m.steps| ==> Valid(fs, m.steps[j])
  {
    forall j | 0 <= j < n && j < |m.steps| ensures Valid(fs, m.steps[j]) <==> Acceptable(fs, m.steps[j]) {
      ValidIsAcceptable(fs, m.steps[j]);
    }
  }

  lemma EndsUnfit(fs: Files, m: Multi, k: nat)
    requires FirstUnfit(fs, m, k)
    ensures MultiSpec(fs, m).1 ==
      if Readable(fs, m.steps[k]) then MultiNotUnique(k, Count(fs[m.steps[k].path], m.steps[k].oldText))
      else MultiReadFailed(k)
  {
    ValidUpTo(fs, m, k);
    ValidIsAcceptable(fs, m.steps[k]);
    ValidatesTo(fs, m, 0, map[], k);
  }

  lemma EndsUnwritten(fs: Files, m: Multi, k: nat)
    requires FirstUnwritten(fs, m, k)
    ensures MultiSpec(fs, m).1 == MultiWriteFailed(k)
  {
    ValidUpTo(fs, m, |m.steps|);
    ValidateGathers(fs, m.steps, 0, map[]);
    WritesTo(fs, m, 0, ValidateFrom(fs, m.steps, 0, map[]).0, k);
  }

  lemma EndsByLint(fs: Files, m: Multi)
    requires AcceptableUpTo(fs, m, |m.steps|) && WrittenUpTo(m, |m.steps|)
    ensures MultiSpec(fs, m).1 == if AllWell(fs, m) then Succeeded else MultiLintFailed(LintVerdicts(m.steps))
  {
    ValidUpTo(fs, m, |m.steps|);
    ValidateGathers(fs, m.steps, 0, map[]);
    WritesTouchTargets(fs, m.steps, 0, ValidateFrom(fs, m.steps, 0, map[]).0);
    assert AllClean(m.steps) <==> forall j :: 0 <= j < |m.steps| ==> m.steps[j].lintClean;
  }

  /** One of the four, and how the batch then ends. */
  lemma HowItEnds(fs: Files, m: Multi) returns (k: nat)
    ensures var o := MultiSpec(fs, m).1;
      || (FirstUnfit(fs, m, k) && o == if Readable(fs, m.steps[k])
            then MultiNotUnique(k, Count(fs[m.steps[k].path], m.steps[k].oldText)) else MultiReadFailed(k))
      || (FirstUnwritten(fs, m, k) && o == MultiWriteFailed(k))
      || (OnlyLintFails(fs, m) && o == MultiLintFailed(LintVerdicts(m.steps)))
      || (AllWell(fs, m) && o == Succeeded)
  {
    k := FindUnfit(fs, m, 0);
    if FirstUnfit(fs, m, k) {
      EndsUnfit(fs, m, k);
    } else {
      k := FindUnwritten(m, 0);
      if FirstUnwritten(fs, m, k) { EndsUnwritten(fs, m, k); } else { EndsByLint(fs, m); }
    }
  }

  /** Whatever the oracles say, the batch tells which operation stopped it and why: the first unfit one, with the
      number of matches side by side if its file can be read; else the first failing write; else, with every verdict,
      the lint. It succeeds exactly when none of these occurs. */
  lemma StoppedBy(fs: Files, m: Multi, k: nat, n: nat)
    ensures var o := MultiSpec(fs, m).1;
      && (o == MultiReadFailed(k) <==> FirstUnfit(fs, m, k) && !Readable(fs, m.steps[k]))
      && (o == MultiNotUnique(k, n) <==>
            FirstUnfit(fs, m, k) && Readable(fs, m.steps[k]) && Most(fs[m.steps[k].path], m.steps[k].oldText, n))
      && (o == MultiWriteFailed(k) <==> FirstUnwritten(fs, m, k))
      && (o.MultiLintFailed? <==> OnlyLintFails(fs, m))
      && (o.MultiLintFailed? ==> |o.lint| == |m.steps|)
      && (o.MultiLintFailed? ==> forall j :: 0 <= j < |m.steps| ==> o.lint[j] == m.steps[j].lintClean)
      && (o == Succeeded <==> AllWell(fs, m))
  {
    var l := HowItEnds(fs, m);
    if FirstUnfit(fs, m, k) && FirstUnfit(fs, m, l) { OneFirst(fs, m, k, l); }
    if k < |m.steps| && Readable(fs, m.steps[k]) {
      var s, t := fs[m.steps[k].path], m.steps[k].oldText;
      CountIsMost(s, t);
      if Most(s, t, n) { MostIsOne(s, t, n, Count(s, t)); }
    }
  }

  lemma OneFirst(fs: Files, m: Multi, k: nat, l: nat)
    requires FirstUnfit(fs, m, k) && FirstUnfit(fs, m, l)
    ensures k == l
  {
  }

  /** Operation `j` ended the batch before `k` was dealt with: validation is over all of them, writing is in turn. */
  ghost predicate StoppedBefore(fs: Files, m: Multi, j: nat, k: nat)
  {
    (j != k && FirstUnfit(fs, m, j)) || (j < k && FirstUnwritten(fs, m, j))
  }

  /** What the caller is told about operation `k`: marked as rolled back exactly when only the lint failed, and then
      a success if its own lint is clean; a plain failure exactly for the operation that stopped the batch before;
      nothing exactly for the others not reached; a success in all other cases. */
  lemma ToldOf(fs: Files, m: Multi, k: nat)
    requires k < |m.steps|
    ensures var r := ResultOf(MultiSpec(fs, m).1, k);
      && (r.Result? && r.rolledBack <==> OnlyLintFails(fs, m))
      && (OnlyLintFails(fs, m) ==> r.success == m.steps[k].lintClean)
      && (r == Result(false, false) <==> FirstUnfit(fs, m, k) || FirstUnwritten(fs, m, k))
      && (r == Missing <==> exists j: nat :: StoppedBefore(fs, m, j, k))
  {
    var l := HowItEnds(fs, m);
    forall j: nat | FirstUnfit(fs, m, j) && FirstUnfit(fs, m, l) ensures j == l { OneFirst(fs, m, j, l); }
    if StoppedBefore(fs, m, l, k) { assert exists j: nat :: StoppedBefore(fs, m, j, k); }
  }

  predicate Same(before: Files, after: Files, p: string)
  {
    (p in after <==> p in before) && (p in before ==> after[p] == before[p])
  }

  /** File by file, a failed batch is all or nothing: whatever happens to the other files, one that no operation
      names, or whose own restoring write works, is as it was. */
  lemma FailedFileRestored(fs: Files, m: Multi, p: string)
    requires MultiSpec(fs, m).1 != Succeeded
    requires p in Targets(m.steps) ==> p in m.order && RestoreOf(m, p) == Wrote
    ensures Same(fs, MultiSpec(fs, m).0, p)
  {
    ValidateGathers(fs, m.steps, 0, map[]);
    var (saved, o1) := ValidateFrom(fs, m.steps, 0, map[]);
    assert m.order[0..] == m.order;
    if o1 != Succeeded {
      RollbackRestores(fs, m, saved, 0);
    } else {
      var f2 := WriteFrom(fs, m.steps, 0, saved).0;
      WritesTouchTargets(fs, m.steps, 0, saved);
      if p in Targets(m.steps) {
        var k :| 0 <= k < |m.steps| && Targets(m.steps)[k] == p;
        assert m.steps[k].path in saved;
      }
      RollbackRestores(f2, m, saved, 0);
    }
  }
}
