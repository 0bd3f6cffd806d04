/** What coalescing same-role messages keeps: who says what, in order, and nothing else to choose. */
module RoleCoalescing {
  import opened Conversation
  import opened AnthropicProvider

  predicate Alternates(out: seq<Param>)
  {
    forall i :: 0 <= i < |out| - 1 ==> out[i].role != out[i + 1].role
  }

  predicate NonEmpty(out: seq<Param>)
  {
    forall p <- out :: p.content != []
  }

  function Tag(p: Param): (r: seq<(Speaker, Block)>)
    ensures |r| == |p.content| && forall i :: 0 <= i < |r| ==> r[i] == (p.role, p.content[i])
  {
    seq(|p.content|, i requires 0 <= i < |p.content| => (p.role, p.content[i]))
  }

  /** Who says what, in order, regardless of how it is cut into messages. */
  function Spoken(out: seq<Param>): seq<(Speaker, Block)>
  {
    if out == [] then [] else Spoken(out[..|out| - 1]) + Tag(out[|out| - 1])
  }

  lemma SpokenSnoc(out: seq<Param>, m: Param)
    ensures Spoken(out + [m]) == Spoken(out) + Tag(m)
  {
    assert (out + [m])[..|out|] == out;
  }

  lemma PushSpoken(out: seq<Param>, m: Param)
    ensures Spoken(Push(out, m)) == Spoken(out) + Tag(m)
  {
    if out != [] && out[|out| - 1].role == m.role {
      var last := out[|out| - 1];
      var joined := Param(m.role, last.content + m.content);
      SpokenSnoc(out[..|out| - 1], joined);
      assert Tag(joined) == Tag(last) + Tag(m);
    } else {
      SpokenSnoc(out, m);
    }
  }

  lemma {:induction false} CoalesceSpoken(input: seq<Param>)
    ensures Spoken(Coalesce(input)) == Spoken(input)
  {
    if input != [] {
      CoalesceSpoken(input[..|input| - 1]);
      PushSpoken(Coalesce(input[..|input| - 1]), input[|input| - 1]);
    }
  }

  lemma {:induction false} CoalesceShape(input: seq<Param>)
    requires NonEmpty(input)
    ensures Alternates(Coalesce(input)) && NonEmpty(Coalesce(input))
    ensures input != [] ==> Coalesce(input) != [] && Coalesce(input)[0].role == input[0].role
  {
    if input != [] {
      CoalesceShape(input[..|input| - 1]);
    }
  }

  /** The last message of `a` is no shorter than that of `b` when both say the same thing. */
  lemma LastTurnNotShorter(a: seq<Param>, b: seq<Param>)
    requires a != [] && b != [] && Alternates(a) && NonEmpty(a) && NonEmpty(b) && Spoken(a) == Spoken(b)
    requires a[|a| - 1].role == b[|b| - 1].role
    ensures |a[|a| - 1].content| >= |b[|b| - 1].content|
  {
    var la, lb := a[|a| - 1], b[|b| - 1];
    var s := Spoken(a);
    assert forall q :: |s| - |lb.content| <= q < |s| ==> s[q].0 == lb.role;
    if |la.content| < |lb.content| {
      var p := |s| - |la.content| - 1;
      var rest := a[..|a| - 1];
      assert |Spoken(rest)| == p + 1;
      assert s[p] == Spoken(rest)[p];
      LastSpoken(rest);
    }
  }

  lemma LastSpoken(out: seq<Param>)
    requires NonEmpty(out)
    ensures out != [] ==> Spoken(out) != [] && Spoken(out)[|Spoken(out)| - 1].0 == out[|out| - 1].role
    ensures out == [] ==> Spoken(out) == []
  {
  }

  /** What is said determines the alternating messages that say it. */
  lemma {:induction false} AlternatingUnique(a: seq<Param>, b: seq<Param>)
    requires Alternates(a) && Alternates(b) && NonEmpty(a) && NonEmpty(b) && Spoken(a) == Spoken(b)
    ensures a == b
  {
    LastSpoken(a);
    LastSpoken(b);
    if a != [] && b != [] {
      LastTurnNotShorter(a, b);
      LastTurnNotShorter(b, a);
      SameLastTurn(a, b);
      AlternatingUnique(a[..|a| - 1], b[..|b| - 1]);
    }
  }

  lemma SameLastTurn(a: seq<Param>, b: seq<Param>)
    requires a != [] && b != [] && Spoken(a) == Spoken(b)
    requires a[|a| - 1].role == b[|b| - 1].role && |a[|a| - 1].content| == |b[|b| - 1].content|
    ensures a[|a| - 1] == b[|b| - 1] && Spoken(a[..|a| - 1]) == Spoken(b[..|b| - 1])
  {
    var la, lb := a[|a| - 1], b[|b| - 1];
    var ra, rb := Spoken(a[..|a| - 1]), Spoken(b[..|b| - 1]);
    assert |ra| == |rb|;
    assert ra == Spoken(a)[..|ra|] && rb == Spoken(b)[..|rb|];
    assert Tag(la) == Spoken(a)[|ra|..] && Tag(lb) == Spoken(b)[|rb|..];
    forall i | 0 <= i < |la.content| ensures la.content[i] == lb.content[i] {
      assert Tag(la)[i] == Tag(lb)[i];
    }
  }

  /** Coalescing gives the one alternating list that says the same blocks in the same order. */
  lemma CoalesceIsTheAlternatingList(input: seq<Param>, other: seq<Param>)
    requires NonEmpty(input) && NonEmpty(other)
    ensures Alternates(Coalesce(input)) && Spoken(Coalesce(input)) == Spoken(input)
    ensures other == Coalesce(input) <==> Alternates(other) && Spoken(other) == Spoken(input)
  {
    CoalesceShape(input);
    CoalesceSpoken(input);
    if Alternates(other) && Spoken(other) == Spoken(input) {
      AlternatingUnique(other, Coalesce(input));
    }
  }

  lemma {:induction false} CoalesceAlternates(input: seq<Param>)
    ensures Alternates(Coalesce(input))
  {
    if input != [] {
      CoalesceAlternates(input[..|input| - 1]);
    }
  }

  /** An alternating list has nothing to coalesce. */
  lemma {:induction false} AlternatingStays(out: seq<Param>)
    requires Alternates(out)
    ensures Coalesce(out) == out
  {
    if out != [] {
      AlternatingStays(out[..|out| - 1]);
    }
  }

  lemma CoalesceIdempotent(input: seq<Param>)
    ensures Coalesce(Coalesce(input)) == Coalesce(input)
  {
    CoalesceAlternates(input);
    AlternatingStays(Coalesce(input));
  }

  /** The converted list opens with the user, alternates, and says the messages' blocks in order,
      after "(continue)" when the assistant would have opened. */
  lemma ConvertedAlternates(ms: seq<Message>)
    ensures Alternates(Converted(ms)) && NonEmpty(Converted(ms))
    ensures Converted(ms) != [] ==> Converted(ms)[0].role.UserTurn?
    ensures Spoken(Converted(ms)) == Spoken(Opened(Flat(ms)))
  {
    CoalesceShape(Opened(Flat(ms)));
    CoalesceSpoken(Opened(Flat(ms)));
    if Opened(Flat(ms)) == [] {
      assert Converted(ms) == [];
    }
  }
}
