/** Where accepted hunks put their lines, and what is wrong with the others. */
module HunkReading {
  import opened Hunks
  import opened Text

  // ---- where the new lines stand ----

  /** The lines a body leaves, in order: context and added lines as given, any line where there is no marker. */
  function NewSide(body: seq<string>): seq<Want>
  {
    if body == [] then []
    else if body[0] == "" || body[0][0] in {'-', '\\'} then NewSide(body[1..])
    else if body[0][0] in {' ', '+'} then [Want.Text(body[0][1..])] + NewSide(body[1..])
    else [Anything] + NewSide(body[1..])
  }

  /** Line by line as wanted, up to line endings. */
  predicate Reads(piece: seq<string>, wants: seq<Want>)
  {
    && |piece| == |wants|
    && forall i :: 0 <= i < |piece| && wants[i].Text? ==> TrimRight(piece[i]) == TrimRight(wants[i].line)
  }

  lemma ReadsCons(x: string, piece: seq<string>, w: Want, wants: seq<Want>)
    requires Reads(piece, wants) && (w.Text? ==> TrimRight(x) == TrimRight(w.line))
    ensures Reads([x] + piece, [w] + wants)
  {
  }

  /** The original has a line for every line the hunk stands for; so it is when all its lines have markers. */
  predicate Covered(lines: seq<string>, at: int, body: seq<string>)
  {
    at + |Wanted(body)| <= |lines|
  }

  lemma {:induction false} BodyReads(lines: seq<string>, at: nat, body: seq<string>)
    requires at <= |lines| && PatchBody(lines, at, body).Ok? && Covered(lines, at, body)
    ensures Reads(PatchBody(lines, at, body).value.0, NewSide(body))
    decreases |body|
  {
    if body != [] {
      var l, rest := body[0], body[1..];
      if l == "" || l[0] == '\\' {
        BodyReads(lines, at, rest);
      } else if l[0] == '+' {
        BodyReads(lines, at, rest);
        ReadsCons(l[1..], PatchBody(lines, at, rest).value.0, Want.Text(l[1..]), NewSide(rest));
      } else {
        BodyReads(lines, at + 1, rest);
        if l[0] != '-' {
          var w := if l[0] == ' ' then Want.Text(l[1..]) else Anything;
          ReadsCons(lines[at], PatchBody(lines, at + 1, rest).value.0, w, NewSide(rest));
        }
      }
    }
  }

  /** The original with the `i`-th piece in place of the lines the `i`-th hunk stands for. */
  function Woven(lines: seq<string>, src: int, hunks: seq<Hunk>, pieces: seq<seq<string>>): seq<string>
    requires |pieces| == |hunks| && 0 <= src <= |lines| && WellPlaced(lines, src, hunks)
    decreases |hunks|
  {
    if hunks == [] then lines[src..]
    else
      WellPlacedStep(lines, src, hunks);
      lines[src..Start(hunks[0])] + pieces[0] + Woven(lines, End(lines, hunks[0]), hunks[1..], pieces[1..])
  }

  /** Each piece reads like the new side of its hunk. */
  ghost predicate PiecesRead(lines: seq<string>, hunks: seq<Hunk>, pieces: seq<seq<string>>)
    requires |pieces| == |hunks|
  {
    forall i :: 0 <= i < |hunks| && Covered(lines, Start(hunks[i]), BodyOf(hunks[i])) ==>
      Reads(pieces[i], NewSide(BodyOf(hunks[i])))
  }

  lemma {:induction false} HunksWeave(lines: seq<string>, src: nat, hunks: seq<Hunk>) returns (pieces: seq<seq<string>>)
    requires src <= |lines| && WellPlaced(lines, src, hunks)
    ensures |pieces| == |hunks| && PiecesRead(lines, hunks, pieces)
    ensures PatchFrom(lines, src, hunks) == Ok(Woven(lines, src, hunks, pieces))
    decreases |hunks|
  {
    HunksAcceptedIff(lines, src, hunks);
    if hunks == [] {
      pieces := [];
    } else {
      var start, b := Start(hunks[0]), BodyOf(hunks[0]);
      FirstHunkAccepted(lines, src, hunks);
      WellPlacedStep(lines, src, hunks);
      BodyAcceptedIff(lines, start, b);
      var (out, next) := PatchBody(lines, start, b).value;
      var rest := HunksWeave(lines, next, hunks[1..]);
      if Covered(lines, start, b) { BodyReads(lines, start, b); }
      pieces := [out] + rest;
      assert pieces[1..] == rest;
      forall i | 0 <= i < |hunks| && Covered(lines, Start(hunks[i]), BodyOf(hunks[i]))
        ensures Reads(pieces[i], NewSide(BodyOf(hunks[i])))
      {
        if i > 0 { assert hunks[1..][i - 1] == hunks[i] && pieces[i] == rest[i - 1]; }
      }
    }
  }

  /** Well-placed hunks leave the original lines between them and, in place of the lines each stands for, its context
      and added lines in the order of its body. */
  lemma HunksLand(original: string, hunks: seq<Hunk>)
    requires WellPlaced(SplitAfter(original), 0, hunks)
    ensures var lines := SplitAfter(original);
      exists pieces: seq<seq<string>> ::
        && |pieces| == |hunks| && PiecesRead(lines, hunks, pieces)
        && ApplyHunksSpec(original, hunks) == Ok(Join(Woven(lines, 0, hunks, pieces)))
  {
    var pieces := HunksWeave(SplitAfter(original), 0, hunks);
  }

  // ---- why hunks are refused ----

  /** What is wrong with a body line that has come to stand for the original line at `at`. */
  predicate Complains(lines: seq<string>, at: int, line: string, e: HunkError)
    requires 0 <= at <= |lines|
  {
    && line != ""
    && match e
       case ContextPastEnd => line[0] == ' ' && at == |lines|
       case ContextMismatch => line[0] == ' ' && at < |lines| && TrimRight(lines[at]) != TrimRight(line[1..])
       case DeletePastEnd => line[0] == '-' && at == |lines|
       case DeleteMismatch => line[0] == '-' && at < |lines| && TrimRight(lines[at]) != TrimRight(line[1..])
       case _ => false
  }

  /** The body fits up to its `n`-th line, which is wrong in the way `e` says. */
  ghost predicate WrongAt(lines: seq<string>, at: nat, body: seq<string>, n: nat, e: HunkError)
  {
    && n < |body| && at <= |lines|
    && Fits(lines, at, Wanted(body[..n]))
    && Complains(lines, Past(lines, at, |Wanted(body[..n])|), body[n], e)
  }

  /** Where the line after body line `l` stands. */
  function Next(lines: seq<string>, at: nat, l: string): nat
  {
    if l == "" || l[0] in {'+', '\\'} || at >= |lines| then at else at + 1
  }

  lemma WrongLater(lines: seq<string>, at: nat, body: seq<string>, n: nat, e: HunkError)
    requires at <= |lines| && 0 < n < |body|
    ensures WrongAt(lines, at, body, n, e) <==>
      Fits(lines, at, Wanted([body[0]])) && WrongAt(lines, Next(lines, at, body[0]), body[1..], n - 1, e)
  {
    var l, rest := body[0], body[1..];
    assert body[..n][1..] == rest[..n - 1];
    var one := [l];
    assert one[1..] == [];
    var wants := Wanted(body[..n]);
    if l != "" && l[0] !in {'+', '\\'} {
      assert wants[1..] == Wanted(rest[..n - 1]) && Wanted([l]) == [wants[0]];
      assert Wanted([l])[1..] == [];
      if at < |lines| {
        FitsStep(lines, at, wants);
        FitsStep(lines, at, Wanted([l]));
      } else {
        FitsAtEnd(lines, wants);
        FitsAtEnd(lines, Wanted([l]));
      }
    }
  }

  /** A body fails with the error of its first line that is wrong, and only then. */
  lemma {:induction false} BodyErrorIff(lines: seq<string>, at: nat, body: seq<string>, e: HunkError)
    requires at <= |lines|
    ensures PatchBody(lines, at, body) == Err(e) <==> exists n: nat :: WrongAt(lines, at, body, n, e)
    decreases |body|
  {
    if body == [] {
    } else {
      var l, rest := body[0], body[1..];
      var at' := Next(lines, at, l);
      BodyErrorIff(lines, at', rest, e);
      FirstLine(lines, at, body, e);
      if n: nat :| WrongAt(lines, at, body, n, e) && n > 0 {
        WrongLater(lines, at, body, n, e);
      }
      if Fits(lines, at, Wanted([l])) {
        if n: nat :| WrongAt(lines, at', rest, n, e) { WrongLater(lines, at, body, n + 1, e); }
      }
    }
  }

  lemma FirstLine(lines: seq<string>, at: nat, body: seq<string>, e: HunkError)
    requires at <= |lines| && body != []
    ensures WrongAt(lines, at, body, 0, e) <==> Complains(lines, at, body[0], e)
    ensures PatchBody(lines, at, body) == Err(e) <==>
      || Complains(lines, at, body[0], e)
      || (Fits(lines, at, Wanted([body[0]])) && PatchBody(lines, Next(lines, at, body[0]), body[1..]) == Err(e))
  {
    var l := body[0];
    var one := [l];
    assert body[..0] == [] && one[1..] == [];
    if l != "" && l[0] !in {'+', '\\'} {
      if at < |lines| { FitsStep(lines, at, Wanted([l])); } else { FitsAtEnd(lines, Wanted([l])); }
    }
  }

  /** The hunks before the `i`-th are well placed; that one starts too early, starts past the end, or has a wrong line,
      as `e` says. */
  ghost predicate RejectedAt(lines: seq<string>, src: int, hunks: seq<Hunk>, i: nat, e: HunkError)
  {
    && i < |hunks| && WellPlaced(lines, src, hunks[..i])
    && RejectedFor(lines, BoundBefore(lines, src, hunks, i), hunks[i], e)
  }

  ghost predicate RejectedFor(lines: seq<string>, bound: int, h: Hunk, e: HunkError)
  {
    match e
    case Overlap => Start(h) < bound
    case PastEnd => Start(h) >= bound && Start(h) > |lines|
    case _ =>
      && 0 <= Start(h) && bound <= Start(h) <= |lines|
      && exists n: nat :: WrongAt(lines, Start(h), BodyOf(h), n, e)
  }

  lemma RejectedLater(lines: seq<string>, src: int, hunks: seq<Hunk>, i: nat, e: HunkError)
    requires 0 < i < |hunks|
    ensures RejectedAt(lines, src, hunks, i, e) <==>
      PlacedAfter(lines, src, hunks[0]) && RejectedAt(lines, End(lines, hunks[0]), hunks[1..], i - 1, e)
  {
    WellPlacedStep(lines, src, hunks[..i]);
    assert hunks[..i][1..] == hunks[1..][..i - 1];
  }

  lemma FirstHunk(lines: seq<string>, src: nat, hunks: seq<Hunk>, e: HunkError)
    requires src <= |lines| && hunks != []
    ensures RejectedAt(lines, src, hunks, 0, e) <==> RejectedFor(lines, src, hunks[0], e)
    ensures PlacedAfter(lines, src, hunks[0]) ==> src <= End(lines, hunks[0]) <= |lines|
    ensures PatchFrom(lines, src, hunks) == Err(e) <==>
      || RejectedFor(lines, src, hunks[0], e)
      || (PlacedAfter(lines, src, hunks[0]) && PatchFrom(lines, End(lines, hunks[0]), hunks[1..]) == Err(e))
  {
    var h := hunks[0];
    if src <= Start(h) <= |lines| {
      BodyErrorIff(lines, Start(h), BodyOf(h), e);
      BodyAcceptedIff(lines, Start(h), BodyOf(h));
    }
  }

  /** Hunks are refused with the error of the first that is misplaced or has a wrong line, and only then. */
  lemma {:induction false} HunksErrorIff(lines: seq<string>, src: nat, hunks: seq<Hunk>, e: HunkError)
    requires src <= |lines|
    ensures PatchFrom(lines, src, hunks) == Err(e) <==> exists i: nat :: RejectedAt(lines, src, hunks, i, e)
    decreases |hunks|
  {
    if hunks == [] {
    } else {
      FirstHunk(lines, src, hunks, e);
      if i: nat :| RejectedAt(lines, src, hunks, i, e) && i > 0 {
        RejectedLater(lines, src, hunks, i, e);
      }
      if PlacedAfter(lines, src, hunks[0]) {
        var end := End(lines, hunks[0]);
        HunksErrorIff(lines, end, hunks[1..], e);
        if i: nat :| RejectedAt(lines, end, hunks[1..], i, e) { RejectedLater(lines, src, hunks, i + 1, e); }
      }
    }
  }
}
