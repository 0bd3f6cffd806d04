/** The edit engine's three operations as transactions on a file store. Everything the outside
    world decides (can the file be read, does a write succeed, is the lint clean) is an oracle
    carried by the call. */
module EditCalls {
  import opened Matching
  import Hunks

  /** Workspace files by canonical absolute path. */
  type Files = map<string, string>

  /** The outcome of a write: done, refused, or failed part-way leaving other content. */
  datatype WriteResult = Wrote | Denied | Torn(left: string)

  function Write(fs: Files, path: string, content: string, w: WriteResult): Files
  {
    match w
    case Wrote => fs[path := content]
    case Denied => fs
    case Torn(left) => fs[path := left]
  }

  datatype ParsedDiff = ParseFailed | NoFileDiffs | FirstFile(hunks: seq<Hunks.Hunk>)

  /** An edit: replace a unique text, or apply a unified diff. */
  datatype Change = Replace(oldText: string, newText: string) | Patch(diff: ParsedDiff)

  datatype Refusal = TextNotFound | TextAmbiguous(count: nat) | BadDiff | EmptyDiff | HunkRejected(e: Hunks.HunkError)

  datatype Plan = Proceed(patched: string) | Refuse(why: Refusal)

  /** The new content the change asks for, or why it is refused. */
  function PlanChange(existing: string, c: Change): Plan
  {
    match c
    case Replace(o, n) =>
      var k := Count(existing, o);
      if k == 0 then Refuse(TextNotFound)
      else if k == 1 then Proceed(ReplaceFirst(existing, o, n))
      else Refuse(TextAmbiguous(k))
    case Patch(ParseFailed) => Refuse(BadDiff)
    case Patch(NoFileDiffs) => Refuse(EmptyDiff)
    case Patch(FirstFile(hunks)) =>
      match Hunks.ApplyHunksSpec(existing, hunks)
      case Ok(text) => Proceed(text)
      case Err(e) => Refuse(HunkRejected(e))
  }

  function Bak(path: string): string { path + ".bak" }

  // ---- single edits ----

  datatype Env = Env(readable: bool, backup: WriteResult, write: WriteResult, lintClean: bool,
                     restore: WriteResult, bakDeleted: bool)

  datatype Outcome =
    | ReadFailed
    | Refused(why: Refusal)
    | WriteFailed
    | RolledBack
    | RollbackFailed
    | Succeeded
    | MultiReadFailed(op: nat)
    | MultiNotUnique(op: nat, count: nat)
    | MultiWriteFailed(op: nat)
    | MultiLintFailed(lint: seq<bool>)

  function Remove(fs: Files, path: string, done: bool): Files
  {
    if done then fs - {path} else fs
  }

  /** `ApplyEdit` and `applyUnifiedDiff` from the read onwards. */
  function SingleSpec(fs: Files, path: string, c: Change, env: Env): (Files, Outcome)
  {
    if !env.readable || path !in fs then (fs, ReadFailed)
    else
      match PlanChange(fs[path], c)
      case Refuse(why) => (fs, Refused(why))
      case Proceed(patched) =>
        var f1 := Write(fs, Bak(path), fs[path], env.backup);
        var f2 := Write(f1, path, patched, env.write);
        if env.write != Wrote then (f2, WriteFailed)
        else if env.lintClean then (Remove(f2, Bak(path), env.bakDeleted), Succeeded)
        else (Write(f2, path, fs[path], env.restore), if env.restore == Wrote then RolledBack else RollbackFailed)
  }

  // ---- multi-file edits ----

  /** One operation of a multi-edit with its oracle. */
  datatype Step = Step(path: string, oldText: string, newText: string,
                       readable: bool, write: WriteResult, lintClean: bool)

  /** `order` is the order in which the backups map happens to be iterated on a rollback. */
  datatype Multi = Multi(steps: seq<Step>, order: seq<string>, restores: map<string, WriteResult>)

  function Targets(steps: seq<Step>): seq<string>
  {
    seq(|steps|, i requires 0 <= i < |steps| => steps[i].path)
  }

  function RestoreOf(m: Multi, path: string): WriteResult
  {
    if path in m.restores then m.restores[path] else Wrote
  }

  /** `rollbackAll`: rewrite every saved file, in iteration order. */
  function RollbackFrom(fs: Files, m: Multi, saved: Files, j: nat): Files
    decreases |m.order| - j
  {
    if j >= |m.order| then fs
    else if m.order[j] in saved then
      RollbackFrom(Write(fs, m.order[j], saved[m.order[j]], RestoreOf(m, m.order[j])), m, saved, j + 1)
    else RollbackFrom(fs, m, saved, j + 1)
  }

  /** Phase 1: read and validate. The backups gathered, and the failure if there is one. */
  function ValidateFrom(fs: Files, steps: seq<Step>, i: nat, saved: Files): (Files, Outcome)
    decreases |steps| - i
  {
    if i >= |steps| then (saved, Succeeded)
    else
      var s := steps[i];
      if !s.readable || s.path !in fs then (saved, MultiReadFailed(i))
      else
        var saved' := saved[s.path := fs[s.path]];
        if Count(fs[s.path], s.oldText) != 1 then (saved', MultiNotUnique(i, Count(fs[s.path], s.oldText)))
        else ValidateFrom(fs, steps, i + 1, saved')
  }

  function Replaced(s: Step, saved: Files): string
  {
    if s.path in saved then ReplaceFirst(saved[s.path], s.oldText, s.newText) else ""
  }

  /** Phase 2: write the patched contents, up to the first failing write. */
  function WriteFrom(fs: Files, steps: seq<Step>, i: nat, saved: Files): (Files, Outcome)
    decreases |steps| - i
  {
    if i >= |steps| then (fs, Succeeded)
    else
      var s := steps[i];
      var fs' := Write(fs, s.path, Replaced(s, saved), s.write);
      if s.write != Wrote then (fs', MultiWriteFailed(i)) else WriteFrom(fs', steps, i + 1, saved)
  }

  function LintVerdicts(steps: seq<Step>): seq<bool>
  {
    seq(|steps|, i requires 0 <= i < |steps| => steps[i].lintClean)
  }

  predicate AllClean(steps: seq<Step>)
  {
    forall s <- steps :: s.lintClean
  }

  function MultiSpec(fs: Files, m: Multi): (Files, Outcome)
  {
    var (saved, o1) := ValidateFrom(fs, m.steps, 0, map[]);
    if o1 != Succeeded then (RollbackFrom(fs, m, saved, 0), o1)
    else
      var (f2, o2) := WriteFrom(fs, m.steps, 0, saved);
      if o2 != Succeeded then (RollbackFrom(f2, m, saved, 0), o2)
      else if AllClean(m.steps) then (f2, Succeeded)
      else (RollbackFrom(f2, m, saved, 0), MultiLintFailed(LintVerdicts(m.steps)))
  }

  /** What the caller is told about one operation; `Missing` when the batch ended before reaching it. */
  datatype OpResult = Missing | Result(success: bool, rolledBack: bool)

  /** The entry of operation `k` after a batch that ended in `o`. */
  function ResultOf(o: Outcome, k: nat): OpResult
  {
    match o
    case Succeeded => Result(true, false)
    case MultiReadFailed(i) => if k == i then Result(false, false) else Missing
    case MultiNotUnique(i, _) => if k == i then Result(false, false) else Missing
    case MultiWriteFailed(i) => if k < i then Result(true, false) else if k == i then Result(false, false) else Missing
    case MultiLintFailed(lint) => Result(k < |lint| && lint[k], true)
    case _ => Missing
  }

  /** `results` are those of a batch of `n` operations that ended in `o`. */
  ghost predicate Reports(results: seq<OpResult>, o: Outcome, n: nat)
  {
    |results| == n && forall k :: 0 <= k < n ==> results[k] == ResultOf(o, k)
  }

  // ---- calls ----

  datatype Call = Single(path: string, change: Change, env: Env) | Batch(multi: Multi)

  function CallTargets(c: Call): seq<string>
  {
    match c
    case Single(p, _, _) => [p]
    case Batch(m) => Targets(m.steps)
  }

  function CallSpec(fs: Files, c: Call): (Files, Outcome)
  {
    match c
    case Single(p, ch, env) => SingleSpec(fs, p, ch, env)
    case Batch(m) => MultiSpec(fs, m)
  }

  // ---- what phase 1 gathers ----

  /** An operation that phase 1 accepts. */
  predicate Valid(fs: Files, s: Step)
  {
    s.readable && s.path in fs && Count(fs[s.path], s.oldText) == 1
  }

  lemma {:induction false} ValidateGathers(fs: Files, steps: seq<Step>, i: nat, saved: Files)
    requires saved.Keys <= fs.Keys && forall p <- saved :: saved[p] == fs[p] && p in Targets(steps)
    ensures var (saved', o) := ValidateFrom(fs, steps, i, saved);
      && saved.Keys <= saved'.Keys <= fs.Keys
      && (forall p <- saved' :: saved'[p] == fs[p] && p in Targets(steps))
      && (o == Succeeded <==> forall k :: i <= k < |steps| ==> Valid(fs, steps[k]))
      && (o == Succeeded ==> forall k :: i <= k < |steps| ==> steps[k].path in saved')
    decreases |steps| - i
  {
    if i < |steps| {
      var s := steps[i];
      assert Targets(steps)[i] == s.path;
      if Valid(fs, s) {
        ValidateGathers(fs, steps, i + 1, saved[s.path := fs[s.path]]);
      }
    }
  }

  lemma AllSaved(fs: Files, steps: seq<Step>)
    requires ValidateFrom(fs, steps, 0, map[]).1 == Succeeded
    ensures forall s <- steps :: s.path in ValidateFrom(fs, steps, 0, map[]).0
  {
    ValidateGathers(fs, steps, 0, map[]);
  }
}
