/** Applying unified-diff hunks line by line. */
module Hunks {
  import opened Text

  /** A parsed hunk: the 1-based first original line and the raw body. */
  datatype Hunk = Hunk(origStart: int, body: string)

  datatype HunkError = Overlap | PastEnd | ContextPastEnd | ContextMismatch | DeletePastEnd | DeleteMismatch

  datatype Result<+T> = Ok(value: T) | Err(error: HunkError)

  type Patched = Result<(seq<string>, nat)>

  function Prepend(pre: seq<string>, r: Patched): Patched
  {
    match r
    case Ok((out, next)) => Ok((pre + out, next))
    case Err(e) => Err(e)
  }

  /** The body of one hunk read against `lines` from index `at`: the lines produced and the
      index of the first original line not consumed, or the first failure. */
  function PatchBody(lines: seq<string>, at: nat, body: seq<string>): (r: Patched)
    ensures r.Ok? && at <= |lines| ==> at <= r.value.1 <= |lines|
    decreases |body|
  {
    if body == [] then Ok(([], at))
    else if body[0] == "" then PatchBody(lines, at, body[1..])
    else
      var marker, content := body[0][0], body[0][1..];
      match marker
      case ' ' =>
        if at >= |lines| then Err(ContextPastEnd)
        else if TrimRight(lines[at]) != TrimRight(content) then Err(ContextMismatch)
        else Prepend([lines[at]], PatchBody(lines, at + 1, body[1..]))
      case '-' =>
        if at >= |lines| then Err(DeletePastEnd)
        else if TrimRight(lines[at]) != TrimRight(content) then Err(DeleteMismatch)
        else PatchBody(lines, at + 1, body[1..])
      case '+' => Prepend([content], PatchBody(lines, at, body[1..]))
      case '\\' => PatchBody(lines, at, body[1..])
      case _ =>
        if at < |lines| then Prepend([lines[at]], PatchBody(lines, at + 1, body[1..]))
        else PatchBody(lines, at, body[1..])
  }

  function Start(h: Hunk): int { h.origStart - 1 }

  /** All hunks, the original already consumed up to `src`. */
  function PatchFrom(lines: seq<string>, src: nat, hunks: seq<Hunk>): Result<seq<string>>
    requires src <= |lines|
    decreases |hunks|
  {
    if hunks == [] then Ok(lines[src..])
    else
      var start := Start(hunks[0]);
      if start < src then Err(Overlap)
      else if start > |lines| then Err(PastEnd)
      else
        match PatchBody(lines, start, SplitAfter(hunks[0].body))
        case Err(e) => Err(e)
        case Ok((out, next)) =>
          match PatchFrom(lines, next, hunks[1..])
          case Err(e) => Err(e)
          case Ok(more) => Ok(lines[src..start] + out + more)
  }

  function ApplyHunksSpec(original: string, hunks: seq<Hunk>): Result<string>
  {
    match PatchFrom(SplitAfter(original), 0, hunks)
    case Ok(ls) => Ok(Join(ls))
    case Err(e) => Err(e)
  }

  ghost function Append(pre: seq<string>, r: Result<seq<string>>): Result<seq<string>>
  {
    if r.Ok? then Ok(pre + r.value) else r
  }

  /** After `pre` and the body result `r`, the hunks `rest`. */
  ghost function Resume(pre: seq<string>, r: Patched, lines: seq<string>, rest: seq<Hunk>): Result<seq<string>>
    requires r.Ok? ==> r.value.1 <= |lines|
  {
    if r.Ok? then Append(pre + r.value.0, PatchFrom(lines, r.value.1, rest)) else Err(r.error)
  }

  lemma PatchFromStep(lines: seq<string>, src: nat, hunk: Hunk, rest: seq<Hunk>)
    requires src <= Start(hunk) <= |lines|
    ensures PatchFrom(lines, src, [hunk] + rest)
         == Resume(lines[src..Start(hunk)], PatchBody(lines, Start(hunk), SplitAfter(hunk.body)), lines, rest)
  {
    assert ([hunk] + rest)[1..] == rest;
  }

  lemma AppendResume(a: seq<string>, b: seq<string>, r: Patched, lines: seq<string>, rest: seq<Hunk>)
    requires r.Ok? ==> r.value.1 <= |lines|
    ensures Append(a, Resume(b, r, lines, rest)) == Resume(a + b, r, lines, rest)
  {
    if r.Ok? {
      var more := PatchFrom(lines, r.value.1, rest);
      if more.Ok? { assert a + (b + r.value.0 + more.value) == a + b + r.value.0 + more.value; }
    }
  }

  /** One hunk, seen from a loop that has already produced `pre` and expects `whole` in the end. */
  lemma PatchFromNext(whole: Result<seq<string>>, pre: seq<string>, lines: seq<string>, src: nat,
                      hunk: Hunk, rest: seq<Hunk>)
    requires src <= |lines| && whole == Append(pre, PatchFrom(lines, src, [hunk] + rest))
    ensures Start(hunk) < src ==> whole == Err(Overlap)
    ensures src <= Start(hunk) && Start(hunk) > |lines| ==> whole == Err(PastEnd)
    ensures src <= Start(hunk) <= |lines| ==>
      whole == Resume(pre + lines[src..Start(hunk)], PatchBody(lines, Start(hunk), SplitAfter(hunk.body)), lines, rest)
  {
    if src <= Start(hunk) <= |lines| {
      PatchFromStep(lines, src, hunk, rest);
      AppendResume(pre, lines[src..Start(hunk)], PatchBody(lines, Start(hunk), SplitAfter(hunk.body)), lines, rest);
    }
  }

  /** The loop of the engine: a cursor into the original, a growing result, early error returns. */
  method ApplyHunks(original: string, hunks: seq<Hunk>) returns (r: Result<string>)
    ensures r == ApplyHunksSpec(original, hunks)
  {
    var lines := SplitAfter(original);
    ghost var whole := PatchFrom(lines, 0, hunks);
    assert hunks[0..] == hunks;
    assert whole.Ok? ==> [] + whole.value == whole.value;
    var result: seq<string> := [];
    var srcIdx: nat := 0;
    for i := 0 to |hunks|
      invariant srcIdx <= |lines|
      invariant whole == Append(result, PatchFrom(lines, srcIdx, hunks[i..]))
    {
      var hunkStart := hunks[i].origStart - 1;
      assert hunks[i..] == [hunks[i]] + hunks[i + 1..];
      PatchFromNext(whole, result, lines, srcIdx, hunks[i], hunks[i + 1..]);
      if hunkStart < srcIdx { return Err(Overlap); }
      if hunkStart > |lines| { return Err(PastEnd); }
      result := result + lines[srcIdx..hunkStart];
      var produced, consumed, failure := ApplyBody(lines, hunkStart, SplitAfter(hunks[i].body));
      if failure.Err? { return Err(failure.error); }
      result := result + produced;
      srcIdx := hunkStart + consumed;
    }
    assert hunks[|hunks|..] == [];
    AllPatched(whole, result, lines, srcIdx);
    if srcIdx < |lines| {
      result := result + lines[srcIdx..];
    }
    return Ok(Join(result));
  }

  lemma AllPatched(whole: Result<seq<string>>, pre: seq<string>, lines: seq<string>, src: nat)
    requires src <= |lines| && whole == Append(pre, PatchFrom(lines, src, []))
    ensures whole == Ok(if src < |lines| then pre + lines[src..] else pre)
  {
    if src == |lines| {
      assert pre + lines[src..] == pre;
    }
  }

  lemma PrependPrepend(a: seq<string>, b: seq<string>, r: Patched)
    ensures Prepend(a, Prepend(b, r)) == Prepend(a + b, r)
  {
    if r.Ok? { assert a + (b + r.value.0) == a + b + r.value.0; }
  }

  /** The inner loop over one hunk's body. */
  method ApplyBody(lines: seq<string>, hunkStart: nat, body: seq<string>)
    returns (result: seq<string>, consumed: nat, status: Result<()>)
    requires hunkStart <= |lines|
    ensures PatchBody(lines, hunkStart, body) ==
            if status.Ok? then Ok((result, hunkStart + consumed)) else Err(status.error)
    ensures status.Ok? ==> hunkStart + consumed <= |lines|
  {
    result, consumed := [], 0;
    ghost var whole := PatchBody(lines, hunkStart, body);
    assert body[0..] == body;
    assert whole.Ok? ==> [] + whole.value.0 == whole.value.0;
    for i := 0 to |body|
      invariant hunkStart + consumed <= |lines|
      invariant whole == Prepend(result, PatchBody(lines, hunkStart + consumed, body[i..]))
    {
      var bLine := body[i];
      SuffixStep(body, i);
      if bLine == "" { continue; }
      var content := bLine[1..];
      var lineIdx := hunkStart + consumed;
      ghost var rest := PatchBody(lines, lineIdx + 1, body[i + 1..]);
      match bLine[0] {
        case ' ' =>
          if lineIdx >= |lines| { return result, consumed, Err(ContextPastEnd); }
          if TrimRight(lines[lineIdx]) != TrimRight(content) { return result, consumed, Err(ContextMismatch); }
          PrependPrepend(result, [lines[lineIdx]], rest);
          result := result + [lines[lineIdx]];
          consumed := consumed + 1;
        case '-' =>
          if lineIdx >= |lines| { return result, consumed, Err(DeletePastEnd); }
          if TrimRight(lines[lineIdx]) != TrimRight(content) { return result, consumed, Err(DeleteMismatch); }
          consumed := consumed + 1;
        case '+' =>
          PrependPrepend(result, [content], PatchBody(lines, lineIdx, body[i + 1..]));
          result := result + [content];
        case '\\' =>
        case _ =>
          if lineIdx < |lines| {
            PrependPrepend(result, [lines[lineIdx]], rest);
            result := result + [lines[lineIdx]];
            consumed := consumed + 1;
          }
      }
    }
    assert body[|body|..] == [];
    assert result + [] == result;
    status := Ok(());
  }

  // ---- when hunks are accepted ----

  /** The contents of the body lines that carry one of `marks`, in order. */
  function Pick(body: seq<string>, marks: set<char>): seq<string>
  {
    if body == [] then []
    else if body[0] != "" && body[0][0] in marks then [body[0][1..]] + Pick(body[1..], marks)
    else Pick(body[1..], marks)
  }

  /** The deleted and the added lines of a body. */
  function Deletions(body: seq<string>): seq<string> { Pick(body, {'-'}) }
  function Additions(body: seq<string>): seq<string> { Pick(body, {'+'}) }

  /** What a body line demands of the original line it stands for: a context or deleted line its text, a
      line with no marker nothing. */
  datatype Want = Text(line: string) | Anything

  /** The original lines a body stands for, in order. */
  function Wanted(body: seq<string>): seq<Want>
  {
    if body == [] then []
    else if body[0] == "" || body[0][0] in {'+', '\\'} then Wanted(body[1..])
    else if body[0][0] in {' ', '-'} then [Text(body[0][1..])] + Wanted(body[1..])
    else [Anything] + Wanted(body[1..])
  }

  ghost predicate SameUpToEnding(a: seq<string>, b: seq<string>)
  {
    |a| == |b| && forall i :: 0 <= i < |a| ==> TrimRight(a[i]) == TrimRight(b[i])
  }

  /** The original line at `i` meets the demand; past the end only a line with no marker is content. */
  predicate Meets(lines: seq<string>, i: nat, w: Want)
  {
    w.Text? ==> i < |lines| && TrimRight(lines[i]) == TrimRight(w.line)
  }

  /** The original, from `at`, reads like `wants` up to line endings. */
  ghost predicate Fits(lines: seq<string>, at: int, wants: seq<Want>)
  {
    0 <= at <= |lines| && forall i :: 0 <= i < |wants| ==> Meets(lines, at + i, wants[i])
  }

  /** The first original line after `count` lines from `at`, or the end. */
  function Past(lines: seq<string>, at: int, count: nat): int
  {
    if at + count <= |lines| then at + count else |lines|
  }

  lemma FitsStep(lines: seq<string>, at: nat, wants: seq<Want>)
    requires wants != [] && at < |lines|
    ensures Fits(lines, at, wants) <==> Meets(lines, at, wants[0]) && Fits(lines, at + 1, wants[1..])
  {
    var tail := wants[1..];
    if Fits(lines, at, wants) {
      assert Meets(lines, at + 0, wants[0]);
      forall i | 0 <= i < |tail| ensures Meets(lines, at + 1 + i, tail[i]) {
        assert Meets(lines, at + (i + 1), wants[i + 1]);
      }
    }
    if Meets(lines, at, wants[0]) && Fits(lines, at + 1, tail) {
      forall k | 0 <= k < |wants| ensures Meets(lines, at + k, wants[k]) {
        if k > 0 { assert Meets(lines, at + 1 + (k - 1), tail[k - 1]); }
      }
    }
  }

  /** At the end of the file nothing but lines with no marker fits. */
  lemma FitsAtEnd(lines: seq<string>, wants: seq<Want>)
    requires wants != []
    ensures Fits(lines, |lines|, wants) <==> wants[0].Anything? && Fits(lines, |lines|, wants[1..])
  {
    var at, tail := |lines|, wants[1..];
    if Fits(lines, at, wants) {
      assert Meets(lines, at + 0, wants[0]);
      forall i | 0 <= i < |tail| ensures Meets(lines, at + i, tail[i]) {
        assert Meets(lines, at + (i + 1), wants[i + 1]);
      }
    }
    if wants[0].Anything? && Fits(lines, at, tail) {
      forall k | 0 <= k < |wants| ensures Meets(lines, at + k, wants[k]) {
        if k > 0 { assert Meets(lines, at + (k - 1), tail[k - 1]); }
      }
    }
  }

  /** A body is accepted exactly when the original reads as its context and deleted lines demand. */
  lemma {:induction false} BodyAcceptedIff(lines: seq<string>, at: nat, body: seq<string>)
    requires at <= |lines|
    ensures PatchBody(lines, at, body).Ok? <==> Fits(lines, at, Wanted(body))
    ensures PatchBody(lines, at, body).Ok? ==> PatchBody(lines, at, body).value.1 == Past(lines, at, |Wanted(body)|)
    decreases |body|
  {
    if body != [] {
      var l, rest := body[0], body[1..];
      if l == "" || l[0] in {'+', '\\'} {
        BodyAcceptedIff(lines, at, rest);
      } else {
        assert Wanted(body)[1..] == Wanted(rest);
        if at < |lines| {
          FitsStep(lines, at, Wanted(body));
          BodyAcceptedIff(lines, at + 1, rest);
        } else {
          FitsAtEnd(lines, Wanted(body));
          BodyAcceptedIff(lines, at, rest);
        }
      }
    }
  }

  function BodyOf(h: Hunk): seq<string> { SplitAfter(h.body) }

  /** Where the hunk stops reading the original. */
  function End(lines: seq<string>, h: Hunk): int { Past(lines, Start(h), |Wanted(BodyOf(h))|) }

  ghost predicate PlacedAfter(lines: seq<string>, bound: int, h: Hunk)
  {
    bound <= Start(h) && Fits(lines, Start(h), Wanted(BodyOf(h)))
  }

  /** Where the hunk before the `i`-th one ends. */
  function BoundBefore(lines: seq<string>, src: int, hunks: seq<Hunk>, i: int): int
    requires 0 <= i < |hunks|
  {
    if i == 0 then src else End(lines, hunks[i - 1])
  }

  /** Hunks in order and disjoint, each starting inside the file and reading like it. */
  ghost predicate WellPlaced(lines: seq<string>, src: int, hunks: seq<Hunk>)
  {
    forall i :: 0 <= i < |hunks| ==> PlacedAfter(lines, BoundBefore(lines, src, hunks, i), hunks[i])
  }

  lemma WellPlacedStep(lines: seq<string>, src: int, hunks: seq<Hunk>)
    requires hunks != []
    ensures WellPlaced(lines, src, hunks) <==>
      PlacedAfter(lines, src, hunks[0]) && WellPlaced(lines, End(lines, hunks[0]), hunks[1..])
  {
    var rest, end := hunks[1..], End(lines, hunks[0]);
    if WellPlaced(lines, src, hunks) {
      assert BoundBefore(lines, src, hunks, 0) == src;
      forall i | 0 <= i < |rest| ensures PlacedAfter(lines, BoundBefore(lines, end, rest, i), rest[i]) {
        assert rest[i] == hunks[i + 1] && BoundBefore(lines, src, hunks, i + 1) == BoundBefore(lines, end, rest, i);
      }
    }
    if PlacedAfter(lines, src, hunks[0]) && WellPlaced(lines, end, rest) {
      forall i | 0 <= i < |hunks| ensures PlacedAfter(lines, BoundBefore(lines, src, hunks, i), hunks[i]) {
        if i > 0 {
          assert rest[i - 1] == hunks[i] && BoundBefore(lines, src, hunks, i) == BoundBefore(lines, end, rest, i - 1);
        }
      }
    }
  }

  /** Hunks are accepted exactly when they are in order, disjoint, start within the file, and every
      context and deleted line matches the original up to its line ending. */
  lemma {:induction false} HunksAcceptedIff(lines: seq<string>, src: nat, hunks: seq<Hunk>)
    requires src <= |lines|
    ensures PatchFrom(lines, src, hunks).Ok? <==> WellPlaced(lines, src, hunks)
    decreases |hunks|
  {
    if hunks != [] {
      WellPlacedStep(lines, src, hunks);
      var start := Start(hunks[0]);
      if src <= start <= |lines| {
        var b := BodyOf(hunks[0]);
        BodyAcceptedIff(lines, start, b);
        if PatchBody(lines, start, b).Ok? {
          HunksAcceptedIff(lines, PatchBody(lines, start, b).value.1, hunks[1..]);
        }
      }
    }
  }

  // ---- what accepted hunks do ----

  /** One step of an edit script. */
  datatype Kind = Keep | Drop | Insert
  datatype Edit = Edit(kind: Kind, line: string)

  /** The lines of the steps of the given kinds, in order. */
  function View(e: seq<Edit>, kinds: set<Kind>): seq<string>
  {
    if e == [] then []
    else if e[0].kind in kinds then [e[0].line] + View(e[1..], kinds)
    else View(e[1..], kinds)
  }

  function Before(e: seq<Edit>): seq<string> { View(e, {Keep, Drop}) }
  function After(e: seq<Edit>): seq<string> { View(e, {Keep, Insert}) }
  function Dropped(e: seq<Edit>): seq<string> { View(e, {Drop}) }
  function Inserted(e: seq<Edit>): seq<string> { View(e, {Insert}) }

  lemma {:induction false} ViewAppend(a: seq<Edit>, b: seq<Edit>, kinds: set<Kind>)
    ensures View(a + b, kinds) == View(a, kinds) + View(b, kinds)
  {
    if a == [] {
      assert a + b == b;
    } else {
      assert (a + b)[1..] == a[1..] + b;
      ViewAppend(a[1..], b, kinds);
    }
  }

  lemma ViewCons(x: Edit, e: seq<Edit>, kinds: set<Kind>)
    ensures View([x] + e, kinds) == if x.kind in kinds then [x.line] + View(e, kinds) else View(e, kinds)
  {
    assert ([x] + e)[1..] == e;
  }

  lemma ScriptCons(x: Edit, e: seq<Edit>)
    ensures Before([x] + e) == if x.kind != Insert then [x.line] + Before(e) else Before(e)
    ensures After([x] + e) == if x.kind != Drop then [x.line] + After(e) else After(e)
    ensures Dropped([x] + e) == if x.kind == Drop then [x.line] + Dropped(e) else Dropped(e)
    ensures Inserted([x] + e) == if x.kind == Insert then [x.line] + Inserted(e) else Inserted(e)
  {
    ViewCons(x, e, {Keep, Drop}); ViewCons(x, e, {Keep, Insert}); ViewCons(x, e, {Drop}); ViewCons(x, e, {Insert});
  }

  lemma {:induction false} KeepAll(lines: seq<string>) returns (e: seq<Edit>)
    ensures Before(e) == lines && After(e) == lines && Dropped(e) == [] && Inserted(e) == []
  {
    if lines == [] {
      e := [];
    } else {
      var r := KeepAll(lines[1..]);
      e := [Edit(Keep, lines[0])] + r;
      ScriptCons(Edit(Keep, lines[0]), r);
    }
  }

  lemma {:induction false} ScriptLength(e: seq<Edit>)
    ensures |After(e)| == |Before(e)| - |Dropped(e)| + |Inserted(e)|
  {
    if e != [] { ScriptLength(e[1..]); }
  }

  lemma EndingsAppend(a: seq<string>, a': seq<string>, b: seq<string>, b': seq<string>)
    requires SameUpToEnding(a, a') && SameUpToEnding(b, b')
    ensures SameUpToEnding(a + b, a' + b')
  {
  }

  /** Lines `a..b` of the original. */
  ghost predicate IsSlice(lines: seq<string>, a: int, b: int, s: seq<string>)
  {
    0 <= a <= b <= |lines| && s == lines[a..b]
  }

  lemma SliceCons(lines: seq<string>, a: nat, b: nat)
    requires a < b <= |lines|
    ensures lines[a..b] == [lines[a]] + lines[a + 1..b]
  {
  }

  lemma {:induction false} BodyScript(lines: seq<string>, at: nat, body: seq<string>) returns (e: seq<Edit>)
    requires at <= |lines| && PatchBody(lines, at, body).Ok?
    ensures IsSlice(lines, at, PatchBody(lines, at, body).value.1, Before(e))
    ensures After(e) == PatchBody(lines, at, body).value.0
    ensures Inserted(e) == Additions(body) && SameUpToEnding(Dropped(e), Deletions(body))
    decreases |body|
  {
    if body == [] {
      e := [];
    } else {
      var l, rest := body[0], body[1..];
      if l == "" || l[0] == '\\' {
        e := BodyScript(lines, at, rest);
      } else if l[0] == '+' {
        var r := BodyScript(lines, at, rest);
        e := [Edit(Insert, l[1..])] + r;
        ScriptCons(Edit(Insert, l[1..]), r);
      } else if at < |lines| {
        var r := BodyScript(lines, at + 1, rest);
        e := ConsumeLine(lines, at, PatchBody(lines, at, body).value.1, r, l[0] != '-', l[1..], Deletions(rest));
      } else {
        e := BodyScript(lines, at, rest);
      }
    }
  }

  /** A script that also consumes the line at `at`. */
  lemma ConsumeLine(lines: seq<string>, at: nat, next: nat, r: seq<Edit>, keep: bool, text: string, dels: seq<string>)
    returns (e: seq<Edit>)
    requires at < |lines| && IsSlice(lines, at + 1, next, Before(r)) && SameUpToEnding(Dropped(r), dels)
    requires !keep ==> TrimRight(lines[at]) == TrimRight(text)
    ensures IsSlice(lines, at, next, Before(e)) && Inserted(e) == Inserted(r)
    ensures After(e) == if keep then [lines[at]] + After(r) else After(r)
    ensures SameUpToEnding(Dropped(e), if keep then dels else [text] + dels)
  {
    var x := Edit(if keep then Keep else Drop, lines[at]);
    e := [x] + r;
    ScriptCons(x, r);
    SliceCons(lines, at, next);
    if !keep {
      EndingsAppend([lines[at]], [text], Dropped(r), dels);
    }
  }

  function AllDeletions(hunks: seq<Hunk>): seq<string>
  {
    if hunks == [] then [] else Deletions(BodyOf(hunks[0])) + AllDeletions(hunks[1..])
  }

  function AllAdditions(hunks: seq<Hunk>): seq<string>
  {
    if hunks == [] then [] else Additions(BodyOf(hunks[0])) + AllAdditions(hunks[1..])
  }

  lemma FirstHunkAccepted(lines: seq<string>, src: nat, hunks: seq<Hunk>)
    requires hunks != [] && src <= |lines| && PatchFrom(lines, src, hunks).Ok?
    ensures src <= Start(hunks[0]) <= |lines|
    ensures PatchBody(lines, Start(hunks[0]), BodyOf(hunks[0])).Ok?
    ensures var (out, next) := PatchBody(lines, Start(hunks[0]), BodyOf(hunks[0])).value;
      && Start(hunks[0]) <= next <= |lines|
      && PatchFrom(lines, next, hunks[1..]).Ok?
      && PatchFrom(lines, src, hunks).value
         == lines[src..Start(hunks[0])] + out + PatchFrom(lines, next, hunks[1..]).value
  {
  }

  lemma ThreeScripts(a: seq<Edit>, b: seq<Edit>, c: seq<Edit>, kinds: set<Kind>)
    ensures View(a + b + c, kinds) == View(a, kinds) + View(b, kinds) + View(c, kinds)
  {
    ViewAppend(a, b, kinds);
    ViewAppend(a + b, c, kinds);
  }

  lemma ThreeSlices(lines: seq<string>, a: nat, b: nat, c: nat)
    requires a <= b <= c <= |lines|
    ensures lines[a..] == lines[a..b] + lines[b..c] + lines[c..]
  {
  }

  /** A script for the gap, one for the first body and one for the rest make one for all. */
  lemma HunksScriptStep(gap: seq<Edit>, body: seq<Edit>, rest: seq<Edit>, dels: seq<string>, moreDels: seq<string>)
    requires Dropped(gap) == [] && Inserted(gap) == []
    requires SameUpToEnding(Dropped(body), dels) && SameUpToEnding(Dropped(rest), moreDels)
    ensures var e := gap + body + rest;
      && Before(e) == Before(gap) + Before(body) + Before(rest)
      && After(e) == After(gap) + After(body) + After(rest)
      && Inserted(e) == Inserted(body) + Inserted(rest)
      && SameUpToEnding(Dropped(e), dels + moreDels)
  {
    ThreeScripts(gap, body, rest, {Keep, Drop});
    ThreeScripts(gap, body, rest, {Keep, Insert});
    ThreeScripts(gap, body, rest, {Drop});
    ThreeScripts(gap, body, rest, {Insert});
    EndingsAppend(Dropped(body), dels, Dropped(rest), moreDels);
    assert [] + Dropped(body) + Dropped(rest) == Dropped(body) + Dropped(rest);
    assert [] + Inserted(body) + Inserted(rest) == Inserted(body) + Inserted(rest);
  }

  lemma {:induction false} HunksScript(lines: seq<string>, src: nat, hunks: seq<Hunk>) returns (e: seq<Edit>)
    requires src <= |lines| && PatchFrom(lines, src, hunks).Ok?
    ensures Before(e) == lines[src..] && After(e) == PatchFrom(lines, src, hunks).value
    ensures Inserted(e) == AllAdditions(hunks) && SameUpToEnding(Dropped(e), AllDeletions(hunks))
    decreases |hunks|
  {
    if hunks == [] {
      e := KeepAll(lines[src..]);
    } else {
      var start, b := Start(hunks[0]), BodyOf(hunks[0]);
      FirstHunkAccepted(lines, src, hunks);
      var next := PatchBody(lines, start, b).value.1;
      var gap := KeepAll(lines[src..start]);
      var body := BodyScript(lines, start, b);
      var rest := HunksScript(lines, next, hunks[1..]);
      e := gap + body + rest;
      HunksScriptStep(gap, body, rest, Deletions(b), AllDeletions(hunks[1..]));
      ThreeSlices(lines, src, start, next);
    }
  }

  /** On success the result is the original under one edit script: every original line is kept, in
      its place and byte for byte, or dropped because a `-` line named it; the `+` lines, in order,
      are all that is new. */
  lemma AcceptedHunksAreAnEdit(original: string, hunks: seq<Hunk>)
    requires ApplyHunksSpec(original, hunks).Ok?
    ensures exists e: seq<Edit> ::
      && Join(Before(e)) == original && Join(After(e)) == ApplyHunksSpec(original, hunks).value
      && Before(e) == SplitAfter(original)
      && Inserted(e) == AllAdditions(hunks) && SameUpToEnding(Dropped(e), AllDeletions(hunks))
      && |After(e)| == |Before(e)| - |AllDeletions(hunks)| + |AllAdditions(hunks)|
  {
    var e := HunksScript(SplitAfter(original), 0, hunks);
    assert SplitAfter(original)[0..] == SplitAfter(original);
    JoinSplitAfter(original);
    ScriptLength(e);
  }

  /** Overlapping hunks, and hunks starting past the end, never apply. */
  lemma MisplacedHunksRejected(original: string, hunks: seq<Hunk>, i: int)
    requires 0 <= i < |hunks|
    requires var lines := SplitAfter(original);
      Start(hunks[i]) > |lines| || Start(hunks[i]) < BoundBefore(lines, 0, hunks, i)
    ensures ApplyHunksSpec(original, hunks).Err?
  {
    HunksAcceptedIff(SplitAfter(original), 0, hunks);
  }
}
