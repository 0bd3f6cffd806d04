/** Printing the difference of two texts as one unified-diff hunk, and what applying that hunk does. */
module DiffPrinter {
  import opened Text
  import opened Hunks
  import Decimal

  const CONTEXT_LINES := 3

  datatype PrintedHunk = PrintedHunk(oldStart: int, oldCount: int, newStart: int, newCount: int, body: string)

  /** Two line lists as a common head, what is gone, what is added, and a common tail. */
  datatype Parts = Parts(head: seq<string>, gone: seq<string>, added: seq<string>, tail: seq<string>)

  function OldOf(p: Parts): seq<string> { p.head + p.gone + p.tail }
  function NewOf(p: Parts): seq<string> { p.head + p.added + p.tail }

  ghost predicate StartDiffer(x: seq<string>, y: seq<string>)
  {
    x != [] && y != [] ==> x[0] != y[0]
  }

  ghost predicate EndDiffer(x: seq<string>, y: seq<string>)
  {
    x != [] && y != [] ==> x[|x| - 1] != y[|y| - 1]
  }

  /** The comparison the generator makes: the head is the longest common one, and the tail the
      longest common one of what is left. */
  ghost predicate IsChange(p: Parts, a: seq<string>, b: seq<string>)
  {
    && a == OldOf(p) && b == NewOf(p)
    && StartDiffer(p.gone + p.tail, p.added + p.tail) && EndDiffer(p.gone, p.added)
  }

  /** Every line with a marker in front and a newline behind. */
  function Mark(m: char, ls: seq<string>): (r: seq<string>)
    ensures |r| == |ls|
  {
    seq(|ls|, i requires 0 <= i < |ls| => [m] + ls[i] + "\n")
  }

  /** Every line with a newline behind. */
  function WithNewlines(ls: seq<string>): (r: seq<string>)
    ensures |r| == |ls|
  {
    seq(|ls|, i requires 0 <= i < |ls| => ls[i] + "\n")
  }

  function Min(a: int, b: int): int { if a < b then a else b }

  /** The context printed before the change, and after it. */
  function Near(head: seq<string>): seq<string> { head[|head| - Min(CONTEXT_LINES, |head|)..] }
  function Next(tail: seq<string>): seq<string> { tail[..Min(CONTEXT_LINES, |tail|)] }

  function Body(before: seq<string>, gone: seq<string>, added: seq<string>, after: seq<string>): seq<string>
  {
    Mark(' ', before) + Mark('-', gone) + Mark('+', added) + Mark(' ', after)
  }

  function HunkLines(p: Parts): seq<string>
  {
    Body(Near(p.head), p.gone, p.added, Next(p.tail))
  }

  function Printed(p: Parts): PrintedHunk
  {
    var start := |p.head| - |Near(p.head)| + 1;
    var context := |Near(p.head)| + |Next(p.tail)|;
    PrintedHunk(start, context + |p.gone|, start, context + |p.added|, Join(HunkLines(p)))
  }

  lemma MarkSnoc(m: char, ls: seq<string>, x: string)
    ensures Join(Mark(m, ls + [x])) == Join(Mark(m, ls)) + [m] + x + "\n"
  {
    assert Mark(m, ls + [x]) == Mark(m, ls) + [[m] + x + "\n"];
    JoinSnoc(Mark(m, ls), [m] + x + "\n");
  }

  /** One emission loop: lines `from..to` with a marker. */
  method Emit(diff: string, m: char, ls: seq<string>, from: nat, to: nat) returns (r: string)
    requires from <= to <= |ls|
    ensures r == diff + Join(Mark(m, ls[from..to]))
  {
    r := diff;
    for i := from to to
      invariant r == diff + Join(Mark(m, ls[from..i]))
    {
      MarkSnoc(m, ls[from..i], ls[i]);
      assert ls[from..i + 1] == ls[from..i] + [ls[i]];
      r := r + [m] + ls[i] + "\n";
    }
  }

  function FromEnd(s: seq<string>, k: int): string
    requires 0 <= k < |s|
  {
    s[|s| - 1 - k]
  }

  lemma TailsEqual(a: seq<string>, b: seq<string>, t: nat)
    requires t <= |a| && t <= |b| && forall k :: 0 <= k < t ==> FromEnd(a, k) == FromEnd(b, k)
    ensures a[|a| - t..] == b[|b| - t..]
  {
    var x, y := a[|a| - t..], b[|b| - t..];
    forall i | 0 <= i < t ensures x[i] == y[i] {
      var k := t - 1 - i;
      assert FromEnd(a, k) == FromEnd(b, k);
    }
  }

  lemma ThreeSlicesOf(a: seq<string>, f: nat, t: nat)
    requires f + t <= |a|
    ensures a[..f] + a[f..|a| - t] + a[|a| - t..] == a
    ensures a[f..|a| - t] + a[|a| - t..] == a[f..]
  {
  }

  lemma ChangeAt(a: seq<string>, b: seq<string>, f: nat, t: nat) returns (p: Parts)
    requires f + t <= |a| && f + t <= |b| && a[..f] == b[..f]
    requires f < |a| && f < |b| ==> a[f] != b[f]
    requires forall k :: 0 <= k < t ==> FromEnd(a, k) == FromEnd(b, k)
    requires f + t < |a| && f + t < |b| ==> FromEnd(a, t) != FromEnd(b, t)
    ensures p == Parts(a[..f], a[f..|a| - t], b[f..|b| - t], b[|b| - t..])
    ensures IsChange(p, a, b)
  {
    p := Parts(a[..f], a[f..|a| - t], b[f..|b| - t], b[|b| - t..]);
    TailsEqual(a, b, t);
    ThreeSlicesOf(a, f, t);
    ThreeSlicesOf(b, f, t);
  }

  /** The two scanning loops. */
  method FindChange(a: seq<string>, b: seq<string>) returns (firstDiff: nat, tailMatch: nat, ghost p: Parts)
    ensures firstDiff + tailMatch <= |a| && firstDiff + tailMatch <= |b|
    ensures p ==
      Parts(a[..firstDiff], a[firstDiff..|a| - tailMatch], b[firstDiff..|b| - tailMatch], b[|b| - tailMatch..])
    ensures IsChange(p, a, b)
  {
    firstDiff := 0;
    while firstDiff < |a| && firstDiff < |b| && a[firstDiff] == b[firstDiff]
      invariant firstDiff <= |a| && firstDiff <= |b| && a[..firstDiff] == b[..firstDiff]
    {
      firstDiff := firstDiff + 1;
    }
    tailMatch := 0;
    while tailMatch < |a| - firstDiff && tailMatch < |b| - firstDiff
      invariant firstDiff + tailMatch <= |a| && firstDiff + tailMatch <= |b|
      invariant forall k :: 0 <= k < tailMatch ==> FromEnd(a, k) == FromEnd(b, k)
    {
      if a[|a| - 1 - tailMatch] != b[|b| - 1 - tailMatch] { break; }
      assert FromEnd(a, tailMatch) == FromEnd(b, tailMatch);
      tailMatch := tailMatch + 1;
    }
    p := ChangeAt(a, b, firstDiff, tailMatch);
  }

  const NO_DIFF := "(no diff — files are identical)"

  /** The file header, the hunk header and the hunk. */
  function Rendered(filePath: string, h: PrintedHunk): string
  {
    "--- a/" + filePath + "\n+++ b/" + filePath + "\n"
    + "@@ -" + Decimal.Print(h.oldStart) + "," + Decimal.Print(h.oldCount)
    + " +" + Decimal.Print(h.newStart) + "," + Decimal.Print(h.newCount) + " @@\n" + h.body
  }

  const MAX_DIFF: nat := 5000

  function Shortened(text: string): string
  {
    if |text| > MAX_DIFF then text[..MAX_DIFF] + "\n... [diff truncated at 5000 chars]" else text
  }

  /** The sentinel is no diff: a difference never prints as one. */
  lemma SentinelIsNoDiff(filePath: string, h: PrintedHunk)
    ensures Shortened(Rendered(filePath, h)) != NO_DIFF
  {
    assert Rendered(filePath, h)[0] == '-';
    assert Shortened(Rendered(filePath, h))[0] == '-';
  }

  /** Equal texts get the sentinel, others the hunk of their difference, with its headers and cut to size. */
  method GenerateUnifiedDiff(filePath: string, oldContent: string, newContent: string)
    returns (text: string, ghost p: Parts)
    ensures text == NO_DIFF <==> oldContent == newContent
    ensures oldContent != newContent ==>
      IsChange(p, Split(oldContent), Split(newContent)) && text == Shortened(Rendered(filePath, Printed(p)))
  {
    if oldContent == newContent {
      p := Parts([], [], [], []);
      return NO_DIFF, p;
    }
    var oldLines, newLines := Split(oldContent), Split(newContent);
    var firstDiff, tailMatch;
    firstDiff, tailMatch, p := FindChange(oldLines, newLines);
    var h := PrintChange(oldLines, newLines, firstDiff, tailMatch, p);
    text := Rendered(filePath, h);
    SentinelIsNoDiff(filePath, h);
    if |text| > MAX_DIFF {
      text := text[..MAX_DIFF] + "\n... [diff truncated at 5000 chars]";
    }
  }

  lemma ContextWindow(a: seq<string>, b: seq<string>, f: nat, t: nat)
    requires f <= |a| && t <= |b|
    ensures Near(a[..f]) == a[f - Min(CONTEXT_LINES, f)..f]
    ensures Next(b[|b| - t..]) == b[|b| - t..|b| - t + Min(CONTEXT_LINES, t)]
  {
  }

  /** The printed hunk in terms of the two line lists. */
  lemma PrintedOf(a: seq<string>, b: seq<string>, f: nat, t: nat)
    requires f + t <= |a| && f + t <= |b|
    ensures var before, after := Min(CONTEXT_LINES, f), Min(CONTEXT_LINES, t);
      Printed(Parts(a[..f], a[f..|a| - t], b[f..|b| - t], b[|b| - t..])) ==
        PrintedHunk(f - before + 1, before + after + |a| - t - f, f - before + 1, before + after + |b| - t - f,
                    Join(Body(a[f - before..f], a[f..|a| - t], b[f..|b| - t], b[|b| - t..|b| - t + after])))
  {
    ContextWindow(a, b, f, t);
  }

  /** Bounds, counts and the emission loops. */
  method PrintChange(oldLines: seq<string>, newLines: seq<string>, firstDiff: nat, tailMatch: nat, ghost p: Parts)
    returns (h: PrintedHunk)
    requires firstDiff + tailMatch <= |oldLines| && firstDiff + tailMatch <= |newLines|
    requires p == Parts(oldLines[..firstDiff], oldLines[firstDiff..|oldLines| - tailMatch],
                        newLines[firstDiff..|newLines| - tailMatch], newLines[|newLines| - tailMatch..])
    ensures h == Printed(p)
  {
    PrintedOf(oldLines, newLines, firstDiff, tailMatch);
    var lastOld, lastNew := |oldLines| - tailMatch, |newLines| - tailMatch;
    if lastOld < firstDiff { lastOld := firstDiff; }
    if lastNew < firstDiff { lastNew := firstDiff; }
    var start := firstDiff - CONTEXT_LINES;
    if start < 0 { start := 0; }
    var endOld := lastOld + CONTEXT_LINES;
    if endOld > |oldLines| { endOld := |oldLines|; }
    var endNew := lastNew + CONTEXT_LINES;
    if endNew > |newLines| { endNew := |newLines|; }
    var diff := EmitAll(oldLines, newLines, start, firstDiff, lastOld, lastNew, endNew);
    h := PrintedHunk(start + 1, endOld - start, start + 1, endNew - start, diff);
  }

  /** The four emission loops. */
  method EmitAll(oldLines: seq<string>, newLines: seq<string>, start: nat, firstDiff: nat, lastOld: nat, lastNew: nat,
                 endNew: nat)
    returns (diff: string)
    requires start <= firstDiff <= lastOld <= |oldLines| && firstDiff <= lastNew <= endNew <= |newLines|
    ensures diff == Join(Body(oldLines[start..firstDiff], oldLines[firstDiff..lastOld],
                              newLines[firstDiff..lastNew], newLines[lastNew..endNew]))
  {
    diff := Emit("", ' ', oldLines, start, firstDiff);
    diff := Emit(diff, '-', oldLines, firstDiff, lastOld);
    diff := Emit(diff, '+', newLines, firstDiff, lastNew);
    diff := Emit(diff, ' ', newLines, lastNew, endNew);
    JoinFour(Mark(' ', oldLines[start..firstDiff]), Mark('-', oldLines[firstDiff..lastOld]),
             Mark('+', newLines[firstDiff..lastNew]), Mark(' ', newLines[lastNew..endNew]));
  }

  lemma JoinFour(a: seq<string>, b: seq<string>, c: seq<string>, d: seq<string>)
    ensures Join(a + b + c + d) == "" + Join(a) + Join(b) + Join(c) + Join(d)
  {
    JoinAppend(a, b);
    JoinAppend(a + b, c);
    JoinAppend(a + b + c, d);
  }

  // ---- applying the printed hunk ----

  lemma MarkedAreLines(m: char, ls: seq<string>)
    requires m != '\n' && forall l <- ls :: '\n' !in l
    ensures forall x <- Mark(m, ls) :: IsLine(x)
  {
    forall i | 0 <= i < |ls| ensures IsLine(Mark(m, ls)[i]) {
      var x := [m] + ls[i] + "\n";
      assert x[..|x| - 1] == [m] + ls[i];
      assert ls[i] in ls;
    }
  }

  lemma HunkResplits(p: Parts)
    requires forall l <- p.head + p.gone + p.added + p.tail :: '\n' !in l
    ensures SplitAfter(Join(HunkLines(p))) == HunkLines(p) + [""]
  {
    var all := p.head + p.gone + p.added + p.tail;
    assert forall l <- Near(p.head) :: l in all;
    assert forall l <- Next(p.tail) :: l in all;
    MarkedAreLines(' ', Near(p.head));
    MarkedAreLines('-', p.gone);
    MarkedAreLines('+', p.added);
    MarkedAreLines(' ', Next(p.tail));
    SplitAfterJoin(HunkLines(p));
  }

  lemma {:induction false} TrimRightNewline(s: string)
    ensures TrimRight(s + "\n") == TrimRight(s)
  {
    assert (s + "\n")[..|s|] == s;
  }

  /** Lines of the file that read like `ls`, each followed by a newline or by nothing. */
  ghost predicate ReadsLike(lines: seq<string>, at: int, ls: seq<string>)
  {
    0 <= at <= |lines| - |ls| && forall i :: 0 <= i < |ls| ==> lines[at + i] == ls[i] || lines[at + i] == ls[i] + "\n"
  }

  lemma ReadsLikeRest(lines: seq<string>, at: int, ls: seq<string>)
    requires ls != [] && ReadsLike(lines, at, ls)
    ensures ReadsLike(lines, at + 1, ls[1..]) && TrimRight(lines[at]) == TrimRight(ls[0] + "\n")
  {
    assert lines[at + 0] == lines[at];
    TrimRightNewline(ls[0]);
    forall i | 0 <= i < |ls[1..]| ensures lines[at + 1 + i] == ls[1..][i] || lines[at + 1 + i] == ls[1..][i] + "\n" {
      assert lines[at + (i + 1)] == ls[i + 1] || lines[at + (i + 1)] == ls[i + 1] + "\n";
    }
  }

  lemma MarkHead(m: char, ls: seq<string>, rest: seq<string>)
    requires ls != []
    ensures Mark(m, ls) + rest == [[m] + ls[0] + "\n"] + (Mark(m, ls[1..]) + rest)
    ensures ([m] + ls[0] + "\n")[1..] == ls[0] + "\n"
  {
    assert Mark(m, ls) == [[m] + ls[0] + "\n"] + Mark(m, ls[1..]);
    assert [m] + ls[0] + "\n" == [m] + (ls[0] + "\n");
  }

  lemma {:induction false} PatchContext(lines: seq<string>, at: nat, ls: seq<string>, rest: seq<string>)
    requires ReadsLike(lines, at, ls)
    ensures PatchBody(lines, at, Mark(' ', ls) + rest)
         == Prepend(lines[at..at + |ls|], PatchBody(lines, at + |ls|, rest))
    decreases |ls|
  {
    if ls == [] {
      assert Mark(' ', ls) + rest == rest;
      PrependNothing(lines[at..at], PatchBody(lines, at, rest));
    } else {
      ReadsLikeRest(lines, at, ls);
      MarkHead(' ', ls, rest);
      var more := Mark(' ', ls[1..]) + rest;
      assert PatchBody(lines, at, Mark(' ', ls) + rest) == Prepend([lines[at]], PatchBody(lines, at + 1, more)) by {
        assert ([[' '] + ls[0] + "\n"] + more)[1..] == more;
      }
      PatchContext(lines, at + 1, ls[1..], rest);
      PrependPrepend([lines[at]], lines[at + 1..at + |ls|], PatchBody(lines, at + |ls|, rest));
      SliceCons(lines, at, at + |ls|);
    }
  }

  lemma {:induction false} PatchDeletions(lines: seq<string>, at: nat, ls: seq<string>, rest: seq<string>)
    requires ReadsLike(lines, at, ls)
    ensures PatchBody(lines, at, Mark('-', ls) + rest) == PatchBody(lines, at + |ls|, rest)
    decreases |ls|
  {
    if ls == [] {
      assert Mark('-', ls) + rest == rest;
    } else {
      ReadsLikeRest(lines, at, ls);
      MarkHead('-', ls, rest);
      PatchDeletions(lines, at + 1, ls[1..], rest);
    }
  }

  lemma {:induction false} PatchAdditions(lines: seq<string>, at: nat, ls: seq<string>, rest: seq<string>)
    ensures PatchBody(lines, at, Mark('+', ls) + rest) == Prepend(WithNewlines(ls), PatchBody(lines, at, rest))
    decreases |ls|
  {
    if ls == [] {
      assert Mark('+', ls) + rest == rest;
      PrependNothing(WithNewlines(ls), PatchBody(lines, at, rest));
    } else {
      MarkHead('+', ls, rest);
      PatchAdditions(lines, at, ls[1..], rest);
      PrependPrepend([ls[0] + "\n"], WithNewlines(ls[1..]), PatchBody(lines, at, rest));
      assert WithNewlines(ls) == [ls[0] + "\n"] + WithNewlines(ls[1..]);
    }
  }

  lemma PrependNothing(p: seq<string>, r: Patched)
    requires p == []
    ensures Prepend(p, r) == r
  {
    if r.Ok? { assert [] + r.value.0 == r.value.0; }
  }

  function AsHunk(h: PrintedHunk): Hunk { Hunk(h.oldStart, h.body) }

  /** The lines the engine gets from `old_` and the printed hunk. */
  function Reapplied(old_: string, h: PrintedHunk): Result<seq<string>>
  {
    PatchFrom(SplitAfter(old_), 0, [AsHunk(h)])
  }

  lemma ReadsLikeParts(lines: seq<string>, at: int, x: seq<string>, y: seq<string>)
    requires ReadsLike(lines, at, x + y)
    ensures ReadsLike(lines, at, x) && ReadsLike(lines, at + |x|, y)
  {
    forall i | 0 <= i < |x| ensures lines[at + i] == x[i] || lines[at + i] == x[i] + "\n" {
      assert (x + y)[i] == x[i];
    }
    forall i | 0 <= i < |y| ensures lines[at + |x| + i] == y[i] || lines[at + |x| + i] == y[i] + "\n" {
      assert (x + y)[|x| + i] == y[i] && lines[at + (|x| + i)] == lines[at + |x| + i];
    }
  }

  lemma BodyNested(before: seq<string>, gone: seq<string>, added: seq<string>, after: seq<string>)
    ensures Body(before, gone, added, after) + [""]
         == Mark(' ', before) + (Mark('-', gone) + (Mark('+', added) + (Mark(' ', after) + [""])))
  {
  }

  lemma ReadsLikeThree(lines: seq<string>, at: int, x: seq<string>, y: seq<string>, z: seq<string>)
    requires ReadsLike(lines, at, x + y + z)
    ensures ReadsLike(lines, at, x) && ReadsLike(lines, at + |x|, y) && ReadsLike(lines, at + |x| + |y|, z)
  {
    ReadsLikeParts(lines, at, x + y, z);
    ReadsLikeParts(lines, at, x, y);
  }

  lemma PatchFirstHalf(lines: seq<string>, at: nat, before: seq<string>, gone: seq<string>, rest: seq<string>)
    requires ReadsLike(lines, at, before) && ReadsLike(lines, at + |before|, gone)
    ensures PatchBody(lines, at, Mark(' ', before) + (Mark('-', gone) + rest))
         == Prepend(lines[at..at + |before|], PatchBody(lines, at + |before| + |gone|, rest))
  {
    PatchContext(lines, at, before, Mark('-', gone) + rest);
    PatchDeletions(lines, at + |before|, gone, rest);
  }

  /** A body of context, deletions, additions and context, at its place. */
  lemma PatchParts(lines: seq<string>, at: nat, before: seq<string>, gone: seq<string>, added: seq<string>,
                   after: seq<string>)
    requires ReadsLike(lines, at, before + gone + after)
    ensures var i, j := at + |before|, at + |before| + |gone|;
      PatchBody(lines, at, Body(before, gone, added, after) + [""])
      == Ok((lines[at..i] + WithNewlines(added) + lines[j..j + |after|], j + |after|))
  {
    var i, j := at + |before|, at + |before| + |gone|;
    ReadsLikeThree(lines, at, before, gone, after);
    BodyNested(before, gone, added, after);
    PatchFirstHalf(lines, at, before, gone, Mark('+', added) + (Mark(' ', after) + [""]));
    PatchSecondHalf(lines, j, added, after);
    ThreePrepends(lines[at..i], WithNewlines(added), lines[j..j + |after|], j + |after|);
  }

  lemma PatchSecondHalf(lines: seq<string>, j: nat, added: seq<string>, after: seq<string>)
    requires ReadsLike(lines, j, after)
    ensures PatchBody(lines, j, Mark('+', added) + (Mark(' ', after) + [""]))
         == Prepend(WithNewlines(added), Prepend(lines[j..j + |after|], Ok(([], j + |after|))))
  {
    PatchAdditions(lines, j, added, Mark(' ', after) + [""]);
    PatchContext(lines, j, after, [""]);
    NothingLeft(lines, j + |after|);
  }

  lemma NothingLeft(lines: seq<string>, at: nat)
    ensures PatchBody(lines, at, [""]) == Ok(([], at))
  {
    assert [""][1..] == [];
  }

  lemma ThreePrepends(x: seq<string>, y: seq<string>, z: seq<string>, next: nat)
    ensures Prepend(x, Prepend(y, Prepend(z, Ok(([], next))))) == Ok((x + y + z, next))
  {
    assert x + (y + (z + [])) == x + y + z;
  }

  /** The same as the only hunk of a diff. */
  lemma PatchOneHunk(lines: seq<string>, h: Hunk, before: seq<string>, gone: seq<string>, added: seq<string>,
                     after: seq<string>)
    requires SplitAfter(h.body) == Body(before, gone, added, after) + [""]
    requires Start(h) >= 0 && ReadsLike(lines, Start(h), before + gone + after)
    ensures var i, j := Start(h) + |before|, Start(h) + |before| + |gone|;
      PatchFrom(lines, 0, [h]) == Ok(lines[..i] + WithNewlines(added) + lines[j..])
  {
    var s, i, j := Start(h), Start(h) + |before|, Start(h) + |before| + |gone|;
    var k := j + |after|;
    PatchParts(lines, s, before, gone, added, after);
    OneHunk(lines, h, lines[s..i] + WithNewlines(added) + lines[j..k], k);
    Reassemble(lines, s, i, WithNewlines(added), j, k);
  }

  lemma TerminatedReadsLike(p: Parts)
    ensures ReadsLike(Terminate(OldOf(p)), |p.head| - |Near(p.head)|, Near(p.head) + p.gone + Next(p.tail))
  {
    var a, s, w := OldOf(p), |p.head| - |Near(p.head)|, Near(p.head) + p.gone + Next(p.tail);
    forall i | 0 <= i < |w| ensures a[s + i] == w[i] {
    }
  }

  lemma NoNewlines(p: Parts, old_: string, new_: string)
    requires IsChange(p, Split(old_), Split(new_))
    ensures forall l <- p.head + p.gone + p.added + p.tail :: '\n' !in l
  {
    forall l <- p.head + p.gone + p.added + p.tail ensures '\n' !in l {
      assert l in OldOf(p) || l in NewOf(p);
    }
  }

  lemma Reassemble(L: seq<string>, s: nat, i: nat, mid: seq<string>, j: nat, k: nat)
    requires s <= i <= |L| && j <= k <= |L|
    ensures L[0..s] + (L[s..i] + mid + L[j..k]) + L[k..] == L[..i] + mid + L[j..]
  {
    assert L[..i] == L[0..s] + L[s..i] && L[j..] == L[j..k] + L[k..];
  }

  /** The old head and tail as they stand, the added lines between them, each with a newline. */
  function Spliced(p: Parts): seq<string>
  {
    var L := Terminate(OldOf(p));
    L[..|p.head|] + WithNewlines(p.added) + L[|p.head| + |p.gone|..]
  }

  /** Closed form of the round trip. */
  lemma ReappliedLines(p: Parts, old_: string, new_: string)
    requires IsChange(p, Split(old_), Split(new_))
    ensures Reapplied(old_, Printed(p)) == Ok(Spliced(p))
  {
    SplitAfterIsTerminatedSplit(old_);
    NoNewlines(p, old_, new_);
    ReapplyParts(p, Terminate(OldOf(p)));
  }

  lemma ReapplyParts(p: Parts, L: seq<string>)
    requires forall l <- p.head + p.gone + p.added + p.tail :: '\n' !in l
    requires L == Terminate(OldOf(p))
    ensures PatchFrom(L, 0, [AsHunk(Printed(p))]) == Ok(Spliced(p))
  {
    HunkResplits(p);
    TerminatedReadsLike(p);
    PatchOneHunk(L, AsHunk(Printed(p)), Near(p.head), p.gone, p.added, Next(p.tail));
  }

  lemma OneHunk(lines: seq<string>, h: Hunk, out: seq<string>, next: nat)
    requires 0 <= Start(h) <= |lines| && PatchBody(lines, Start(h), SplitAfter(h.body)) == Ok((out, next))
    ensures next <= |lines| && PatchFrom(lines, 0, [h]) == Ok(lines[0..Start(h)] + out + lines[next..])
  {
    assert [h][1..] == [];
    assert PatchFrom(lines, next, []) == Ok(lines[next..]);
  }

  /** Applying the printed hunk always succeeds and yields the lines of the new text, each followed
      by a newline or by nothing. */
  lemma RoundTripLines(p: Parts, old_: string, new_: string)
    requires IsChange(p, Split(old_), Split(new_))
    ensures Reapplied(old_, Printed(p)).Ok? && |Reapplied(old_, Printed(p)).value| == |Split(new_)|
    ensures ReadsLike(Reapplied(old_, Printed(p)).value, 0, Split(new_))
  {
    ReappliedLines(p, old_, new_);
    SplicedReadsLike(p);
  }

  lemma SplicedReadsLike(p: Parts)
    ensures |Spliced(p)| == |NewOf(p)| && ReadsLike(Spliced(p), 0, NewOf(p))
  {
    var L, r, b := Terminate(OldOf(p)), Spliced(p), NewOf(p);
    var f, g := |p.head|, |p.head| + |p.added|;
    forall i | 0 <= i < |b| ensures r[0 + i] == b[i] || r[0 + i] == b[i] + "\n" {
      if i < f {
        assert b[i] == p.head[i] && r[i] == L[i];
      } else if i < g {
        assert b[i] == p.added[i - f] && r[i] == p.added[i - f] + "\n";
      } else {
        assert b[i] == p.tail[i - g] && r[i] == L[i - g + f + |p.gone|];
      }
    }
  }

  // ---- when the text itself comes back ----

  lemma TerminateAppend(x: seq<string>, y: seq<string>)
    requires y != []
    ensures Terminate(x + y) == WithNewlines(x) + Terminate(y)
  {
  }

  lemma WithNewlinesIsTerminated(ls: seq<string>)
    requires ls != []
    ensures Join(WithNewlines(ls)) == Join(Terminate(ls)) + "\n"
  {
    var init, last := ls[..|ls| - 1], ls[|ls| - 1];
    assert WithNewlines(ls) == WithNewlines(init) + [last + "\n"];
    assert Terminate(ls) == WithNewlines(init) + [last];
    JoinSnoc(WithNewlines(init), last + "\n");
    JoinSnoc(WithNewlines(init), last);
    assert Join(WithNewlines(init)) + (last + "\n") == Join(WithNewlines(init)) + last + "\n";
  }

  ghost predicate AllBlank(ls: seq<string>)
  {
    forall i :: 0 <= i < |ls| ==> ls[i] == ""
  }

  lemma BlankCons(rest: seq<string>)
    ensures AllBlank([""] + rest) <==> AllBlank(rest)
  {
    if AllBlank([""] + rest) {
      forall i | 0 <= i < |rest| ensures rest[i] == "" { assert ([""] + rest)[i + 1] == rest[i]; }
    }
  }

  lemma NewlineInFront(x: string, y: string)
    ensures "\n" + x == "\n" + y <==> x == y
  {
    assert ("\n" + x)[1..] == x && ("\n" + y)[1..] == y;
  }

  lemma JoinCons(x: string, rest: seq<string>)
    ensures Join([x] + rest) == x + Join(rest)
  {
    assert ([x] + rest)[1..] == rest;
  }

  lemma {:induction false} ShiftedNewline(ls: seq<string>)
    requires ls != [] && forall l <- ls :: '\n' !in l
    ensures Join(WithNewlines(ls)) == "\n" + Join(Terminate(ls)) <==> AllBlank(ls)
  {
    var rest := ls[1..];
    assert ls == [ls[0]] + rest;
    assert WithNewlines(ls) == [ls[0] + "\n"] + WithNewlines(rest);
    JoinCons(ls[0] + "\n", WithNewlines(rest));
    if ls[0] != "" {
      assert ls[0] in ls && ls[0][0] in ls[0];
      assert Join(WithNewlines(ls))[0] == ls[0][0];
    } else if rest == [] {
      assert Terminate(ls) == [""] && WithNewlines(ls) == ["" + "\n"];
      JoinCons("", []);
      assert Join(WithNewlines(ls)) == "\n" + Join([]) == "\n";
    } else {
      assert "" + "\n" == "\n";
      TerminateCons("", rest);
      JoinCons("\n", Terminate(rest));
      NewlineInFront(Join(WithNewlines(rest)), "\n" + Join(Terminate(rest)));
      ShiftedNewline(rest);
      BlankCons(rest);
    }
  }

  lemma WithNewlinesAppend(x: seq<string>, y: seq<string>)
    ensures WithNewlines(x + y) == WithNewlines(x) + WithNewlines(y)
  {
  }

  lemma SplicedWithTail(p: Parts)
    requires p.tail != []
    ensures Spliced(p) == Terminate(NewOf(p))
  {
    var L := Terminate(OldOf(p));
    TerminateAppend(p.head + p.gone, p.tail);
    TerminateAppend(p.head + p.added, p.tail);
    WithNewlinesAppend(p.head, p.gone);
    WithNewlinesAppend(p.head, p.added);
    assert L[|p.head| + |p.gone|..] == Terminate(p.tail);
    assert L[..|p.head|] == WithNewlines(p.head);
  }

  lemma SplicedAfterDeletion(p: Parts)
    requires p.tail == [] && p.gone != []
    ensures Spliced(p) == WithNewlines(NewOf(p))
  {
    assert OldOf(p) == p.head + p.gone && NewOf(p) == p.head + p.added;
    TerminateAppend(p.head, p.gone);
    WithNewlinesAppend(p.head, p.added);
    assert Terminate(OldOf(p))[..|p.head|] == WithNewlines(p.head);
  }

  lemma SplicedAfterAppend(p: Parts)
    requires p.tail == [] && p.gone == []
    ensures OldOf(p) == p.head && NewOf(p) == p.head + p.added
    ensures Spliced(p) == Terminate(OldOf(p)) + WithNewlines(p.added)
  {
    assert OldOf(p) == p.head && NewOf(p) == p.head + p.added;
    var L := Terminate(p.head);
    assert L[..|p.head|] == L && L[|p.head|..] == [];
  }

  lemma AppendedText(head: seq<string>, added: seq<string>)
    requires head != [] && added != []
    ensures Join(Terminate(head + added)) == Join(Terminate(head)) + ("\n" + Join(Terminate(added)))
  {
    TerminateAppend(head, added);
    JoinAppend(WithNewlines(head), Terminate(added));
    WithNewlinesIsTerminated(head);
  }

  /** Nothing deleted and no common tail: the added lines follow the old text, but their newlines are
      behind them instead of in front. */
  lemma AppendShiftsNewline(p: Parts, old_: string, new_: string)
    requires IsChange(p, Split(old_), Split(new_)) && p.tail == [] && p.gone == [] && p.added != []
    ensures new_ == old_ + ("\n" + Join(Terminate(p.added)))
    ensures Join(Spliced(p)) == old_ + Join(WithNewlines(p.added))
  {
    SplicedAfterAppend(p);
    JoinTerminateSplit(old_);
    JoinTerminateSplit(new_);
    JoinAppend(Terminate(p.head), WithNewlines(p.added));
    AppendedText(p.head, p.added);
  }

  /** The new text is the old one with empty lines appended. */
  ghost predicate OnlyBlankLinesAppended(p: Parts)
  {
    p.gone == [] && p.tail == [] && p.added != [] && AllBlank(p.added)
  }

  /** Which is to say: one or more newlines added at the end. */
  lemma OnlyBlankMeansNewlines(p: Parts, old_: string, new_: string)
    requires IsChange(p, Split(old_), Split(new_)) && OnlyBlankLinesAppended(p)
    ensures new_ == old_ + Newlines(|p.added|)
  {
    AppendShiftsNewline(p, old_, new_);
    BlankText(p.added);
  }

  function Newlines(n: nat): string { if n == 0 then "" else "\n" + Newlines(n - 1) }

  lemma {:induction false} BlankText(ls: seq<string>)
    requires ls != [] && AllBlank(ls)
    ensures "\n" + Join(Terminate(ls)) == Newlines(|ls|)
  {
    var rest := ls[1..];
    assert ls == [""] + rest;
    assert "" + "\n" == "\n";
    if rest == [] {
      assert Terminate(ls) == [""];
      JoinCons("", []);
      assert [""] + [] == [""];
      assert Newlines(1) == "\n" + Newlines(0);
    } else {
      TerminateCons("", rest);
      JoinCons("\n", Terminate(rest));
      assert AllBlank(rest) by { BlankCons(rest); }
      BlankText(rest);
    }
  }

  /** The text itself comes back exactly when the two files share lines at the end beyond their common
      head, or the change only appends empty lines; otherwise a newline is misplaced or gained. */
  lemma RoundTripTextIff(p: Parts, old_: string, new_: string)
    requires IsChange(p, Split(old_), Split(new_)) && old_ != new_
    ensures Reapplied(old_, Printed(p)).Ok?
    ensures Join(Reapplied(old_, Printed(p)).value) == new_ <==> p.tail != [] || OnlyBlankLinesAppended(p)
  {
    ReappliedLines(p, old_, new_);
    JoinTerminateSplit(new_);
    if p.tail != [] {
      SplicedWithTail(p);
    } else if p.gone != [] {
      SplicedAfterDeletion(p);
      WithNewlinesIsTerminated(NewOf(p));
      assert |new_ + "\n"| == |new_| + 1;
    } else {
      if p.added == [] { SplitIsInjective(old_, new_); }
      AppendShiftsNewline(p, old_, new_);
      AppendedIff(p, old_, new_);
    }
  }

  lemma AppendedIff(p: Parts, old_: string, new_: string)
    requires IsChange(p, Split(old_), Split(new_)) && p.added != []
    ensures old_ + Join(WithNewlines(p.added)) == old_ + ("\n" + Join(Terminate(p.added))) <==> AllBlank(p.added)
  {
    NoNewlines(p, old_, new_);
    assert forall l <- p.added :: l in p.head + p.gone + p.added + p.tail;
    ShiftedNewline(p.added);
    var x, y := Join(WithNewlines(p.added)), "\n" + Join(Terminate(p.added));
    assert (old_ + x)[|old_|..] == x && (old_ + y)[|old_|..] == y;
  }

  lemma SplitCons(c: char, s: string)
    ensures Split([c] + s) == if c == '\n' then [""] + Split(s) else [[c] + Split(s)[0]] + Split(s)[1..]
  {
    assert ([c] + s)[1..] == s;
  }

  /** One line added after an only line `x`: the result runs the two lines together. */
  lemma GluedLines(old_: string, new_: string, x: string, y: string)
    requires Split(old_) == [x] && Split(new_) == [x, y]
    ensures var p := Parts([x], [], [y], []);
      && IsChange(p, Split(old_), Split(new_))
      && Reapplied(old_, Printed(p)) == Ok(Spliced(p)) && Join(Spliced(p)) == old_ + (y + "\n")
  {
    var p := Parts([x], [], [y], []);
    assert OldOf(p) == [x] && NewOf(p) == [x, y];
    ReappliedLines(p, old_, new_);
    AppendShiftsNewline(p, old_, new_);
    assert WithNewlines([y]) == [y + "\n"] + [];
    JoinCons(y + "\n", []);
  }

  /** A concrete failure: the file "a" with the line "b" added comes back as "ab" and a newline. */
  lemma RoundTripFails()
    ensures var p := Parts(["a"], [], ["b"], []);
      && IsChange(p, Split("a"), Split("a\nb"))
      && Reapplied("a", Printed(p)).Ok? && Join(Reapplied("a", Printed(p)).value) == "ab\n"
  {
    SplitExamples();
    GluedLines("a", "a\nb", "a", "b");
    assert "a" + ("b" + "\n") == "ab\n";
  }

  lemma SplitExamples()
    ensures Split("a") == ["a"] && Split("a\nb") == ["a", "b"]
  {
    SplitCons('a', ""); SplitCons('b', ""); SplitCons('\n', "b"); SplitCons('a', "\nb");
    assert ['a'] + "" == "a" && ['b'] + "" == "b" && ['\n'] + "b" == "\nb" && ['a'] + "\nb" == "a\nb";
  }

  // ---- the @@ header ----

  /** The old lines a body talks about: context and deletions. */
  function OldSide(body: seq<string>): seq<string> { Pick(body, {' ', '-'}) }

  /** The new lines a body talks about: context and additions. */
  function NewSide(body: seq<string>): seq<string> { Pick(body, {' ', '+'}) }

  lemma {:induction false} PickAppend(x: seq<string>, y: seq<string>, marks: set<char>)
    ensures Pick(x + y, marks) == Pick(x, marks) + Pick(y, marks)
  {
    if x == [] {
      assert x + y == y;
    } else {
      assert (x + y)[1..] == x[1..] + y;
      PickAppend(x[1..], y, marks);
    }
  }

  lemma {:induction false} PickMarked(m: char, ls: seq<string>, marks: set<char>)
    ensures Pick(Mark(m, ls), marks) == if m in marks then WithNewlines(ls) else []
  {
    if ls != [] {
      MarkHead(m, ls, []);
      assert Mark(m, ls) == [[m] + ls[0] + "\n"] + Mark(m, ls[1..]);
      PickMarked(m, ls[1..], marks);
      assert WithNewlines(ls) == [ls[0] + "\n"] + WithNewlines(ls[1..]);
    }
  }

  lemma PickBody(before: seq<string>, gone: seq<string>, added: seq<string>, after: seq<string>, marks: set<char>)
    ensures Pick(Body(before, gone, added, after) + [""], marks) ==
      Pick(Mark(' ', before), marks) + Pick(Mark('-', gone), marks)
      + Pick(Mark('+', added), marks) + Pick(Mark(' ', after), marks)
  {
    var w, x, y, z := Mark(' ', before), Mark('-', gone), Mark('+', added), Mark(' ', after);
    PickAppend(w, x, marks);
    PickAppend(w + x, y, marks);
    PickAppend(w + x + y, z, marks);
    PickAppend(w + x + y + z, [""], marks);
    assert Pick([""], marks) == [];
  }

  lemma OldSideOfBody(before: seq<string>, gone: seq<string>, added: seq<string>, after: seq<string>)
    ensures OldSide(Body(before, gone, added, after) + [""]) == WithNewlines(before + gone + after)
  {
    var marks := {' ', '-'};
    PickBody(before, gone, added, after, marks);
    PickMarked(' ', before, marks);
    PickMarked('-', gone, marks);
    PickMarked('+', added, marks);
    PickMarked(' ', after, marks);
    assert WithNewlines(before) + WithNewlines(gone) + [] == WithNewlines(before) + WithNewlines(gone);
    WithNewlinesAppend(before + gone, after); WithNewlinesAppend(before, gone);
  }

  lemma NewSideOfBody(before: seq<string>, gone: seq<string>, added: seq<string>, after: seq<string>)
    ensures NewSide(Body(before, gone, added, after) + [""]) == WithNewlines(before + added + after)
  {
    var marks := {' ', '+'};
    PickBody(before, gone, added, after, marks);
    PickMarked(' ', before, marks);
    PickMarked('-', gone, marks);
    PickMarked('+', added, marks);
    PickMarked(' ', after, marks);
    assert WithNewlines(before) + [] == WithNewlines(before);
    WithNewlinesAppend(before + added, after); WithNewlinesAppend(before, added);
  }

  /** The lines of `whole` from the 1-based `start`, `count` of them. */
  ghost predicate IsRange(whole: seq<string>, start: int, count: int, part: seq<string>)
  {
    1 <= start && 0 <= count && start - 1 + count <= |whole| && whole[start - 1..start - 1 + count] == part
  }

  lemma Window(head: seq<string>, mid: seq<string>, tail: seq<string>)
    ensures IsRange(head + mid + tail, |head| - |Near(head)| + 1, |Near(head)| + |Next(tail)| + |mid|,
                    Near(head) + mid + Next(tail))
  {
    var s, w := |head| - |Near(head)|, Near(head) + mid + Next(tail);
    assert (head + mid + tail)[s..s + |w|] == w;
  }

  /** A header that tells the truth: the context and deleted lines emitted are exactly the `oldCount`
      lines of the old file from `oldStart`, and likewise on the new side. */
  ghost predicate HeaderHolds(h: PrintedHunk, a: seq<string>, b: seq<string>)
  {
    exists x, y ::
      && IsRange(a, h.oldStart, h.oldCount, x) && OldSide(SplitAfter(h.body)) == WithNewlines(x)
      && IsRange(b, h.newStart, h.newCount, y) && NewSide(SplitAfter(h.body)) == WithNewlines(y)
  }

  lemma HeaderOfBody(h: PrintedHunk, a: seq<string>, b: seq<string>,
                     before: seq<string>, gone: seq<string>, added: seq<string>, after: seq<string>)
    requires SplitAfter(h.body) == Body(before, gone, added, after) + [""]
    requires IsRange(a, h.oldStart, h.oldCount, before + gone + after)
    requires IsRange(b, h.newStart, h.newCount, before + added + after)
    ensures HeaderHolds(h, a, b)
  {
    OldSideOfBody(before, gone, added, after);
    NewSideOfBody(before, gone, added, after);
  }

  lemma HeaderOfParts(p: Parts)
    requires forall l <- p.head + p.gone + p.added + p.tail :: '\n' !in l
    ensures HeaderHolds(Printed(p), OldOf(p), NewOf(p))
  {
    HunkResplits(p);
    Window(p.head, p.gone, p.tail);
    Window(p.head, p.added, p.tail);
    HeaderOfBody(Printed(p), OldOf(p), NewOf(p), Near(p.head), p.gone, p.added, Next(p.tail));
  }

  lemma HeaderMatchesBody(p: Parts, old_: string, new_: string)
    requires IsChange(p, Split(old_), Split(new_))
    ensures HeaderHolds(Printed(p), Split(old_), Split(new_))
  {
    NoNewlines(p, old_, new_);
    HeaderOfParts(p);
  }
}
