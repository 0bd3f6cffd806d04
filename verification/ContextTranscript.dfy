/** When a transcript is still well-formed after its messages have been fitted into a budget by class: system
    and pinned messages first, then the chosen others. */
module ContextTranscript {
  import opened ContextMessages
  import opened Conversation
  import PrunedHistory

  // ---- what messages need in front of them ----

  /** The debt that messages settle completely: one list of ids, or none at all. */
  datatype Need = Never | Exactly(ids: seq<string>)

  function NeedBefore(m: Message, after: Need): Need
  {
    if after.Never? then Never
    else
      match m.role
      case System => after
      case User => if after.ids == [] && m.calls == [] then Exactly([]) else Never
      case Assistant => if after.ids == Ids(m.calls) then Exactly([]) else Never
      case Tool => if m.calls == [] then Exactly([m.toolCallId] + after.ids) else Never
  }

  function Needs(s: seq<Message>): Need
  {
    if s == [] then Exactly([]) else NeedBefore(s[0], Needs(s[1..]))
  }

  /** A message leads from one debt to another exactly when it needs the one for the other. */
  lemma SettlesIff(owed: seq<string>, m: Message, ids: seq<string>)
    ensures Settle(owed, m) == Owing(ids) <==> NeedBefore(m, Exactly(ids)) == Exactly(owed)
  {
    if m.role.Tool? && owed != [] {
      assert owed == [owed[0]] + owed[1..];
      assert ([m.toolCallId] + ids)[0] == m.toolCallId && ([m.toolCallId] + ids)[1..] == ids;
    }
  }

  lemma {:induction false} BrokenStays(a: seq<Message>, s: seq<Message>)
    requires Debts(a).Broken?
    ensures Debts(a + s).Broken?
  {
    if s == [] {
      assert a + s == a;
    } else {
      PrunedHistory.AppendInit(a, s);
      BrokenStays(a, s[..|s| - 1]);
    }
  }

  /** A transcript is well-formed exactly when, at any point, what comes after needs what is owed there. */
  lemma {:induction false} WellFormedAtIff(a: seq<Message>, s: seq<Message>)
    ensures WellFormed(a + s) <==> Debts(a).Owing? && Needs(s) == Exactly(Debts(a).ids)
    decreases |s|
  {
    if Debts(a).Broken? {
      BrokenStays(a, s);
    } else if s == [] {
      assert a + s == a;
    } else {
      var m, rest := s[0], s[1..];
      assert a + s == a + [m] + rest;
      WellFormedAtIff(a + [m], rest);
      DebtsSnoc(a, m);
      if Needs(rest).Exactly? { SettlesIff(Debts(a).ids, m, Needs(rest).ids); }
    }
  }

  // ---- the pruned transcript ----

  lemma {:induction false} ClassIsClass(ms: seq<Message>, c: Class)
    ensures forall m <- OfClass(ms, c) :: ClassOf(m) == c
  {
    if ms != [] { ClassIsClass(ms[..|ms| - 1], c); }
  }

  lemma {:induction false} SystemOwesNothing(ms: seq<Message>)
    requires AllSystem(ms)
    ensures Debts(ms) == Owing([])
  {
    if ms != [] { SystemOwesNothing(ms[..|ms| - 1]); }
  }

  lemma FrontIff(system: seq<Message>, pinned: seq<Message>, rest: seq<Message>)
    requires AllSystem(system)
    ensures WellFormed(system + pinned + rest) <==> Debts(pinned).Owing? && Needs(rest) == Exactly(Debts(pinned).ids)
  {
    SystemOwesNothing(system);
    PrunedHistory.DebtsAppend(system, [], pinned);
    assert [] + pinned == pinned;
    WellFormedAtIff(system + pinned, rest);
  }

  /** The result is well-formed exactly when the pinned messages, put in front, owe the results that what is
      kept of the others begins with. */
  lemma ClassPrunedIff(ms: seq<Message>, kept: seq<Message>)
    ensures var pinned := OfClass(ms, PinnedClass);
      WellFormed(PrunedTo(ms, kept)) <==> Debts(pinned).Owing? && Needs(kept + Tail(ms)) == Exactly(Debts(pinned).ids)
  {
    var system, pinned, tail := OfClass(ms, SystemClass), OfClass(ms, PinnedClass), Tail(ms);
    ClassIsClass(ms, SystemClass);
    FrontIff(system, pinned, kept + tail);
    assert system + pinned + kept + tail == system + pinned + (kept + tail);
  }

  lemma {:induction false} OthersAreDialogue(ms: seq<Message>)
    requires OfClass(ms, PinnedClass) == []
    ensures OfClass(ms, OtherClass) == Dialogue(ms)
  {
    if ms != [] { OthersAreDialogue(ms[..|ms| - 1]); }
  }

  /** Nothing pinned: exactly when the older messages that are kept owe what all the older ones owed. */
  lemma UnpinnedPrunedIff(ms: seq<Message>, kept: seq<Message>)
    requires WellFormed(ms) && OfClass(ms, PinnedClass) == []
    ensures WellFormed(PrunedTo(ms, kept)) <==> Debts(kept) == Debts(Middle(ms))
  {
    OthersAreDialogue(ms);
    DialogueDebts(ms);
    var others := OfClass(ms, OtherClass);
    assert others == Middle(ms) + Tail(ms);
    WellFormedAtIff(Middle(ms), Tail(ms));
    ClassPrunedIff(ms, kept);
    assert [] + (kept + Tail(ms)) == kept + Tail(ms);
    WellFormedAtIff([], kept + Tail(ms));
    WellFormedAtIff(kept, Tail(ms));
  }

  /** Shortening tool results changes nothing of this. */
  lemma {:induction false} CompactedDebts(ms: seq<Message>)
    ensures Debts(Compacted(ms)) == Debts(ms)
  {
    if ms != [] {
      CompactedDebts(ms[..|ms| - 1]);
      assert Compacted(ms)[..|ms| - 1] == Compacted(ms[..|ms| - 1]);
    }
  }

  // ---- an example ----

  lemma {:induction false} AllOthers(ms: seq<Message>)
    requires forall m <- ms :: ClassOf(m) == OtherClass
    ensures OfClass(ms, OtherClass) == ms && OfClass(ms, PinnedClass) == [] && OfClass(ms, SystemClass) == []
  {
    if ms != [] {
      AllOthers(ms[..|ms| - 1]);
      assert ms == ms[..|ms| - 1] + [ms[|ms| - 1]];
    }
  }

  lemma TokensCons(m: Message, rest: seq<Message>, estimate: string -> nat)
    ensures Tokens([m] + rest, estimate) == estimate(m.content) + Tokens(rest, estimate)
  {
    TokensAppend([m], rest, estimate);
    assert [m][..0] == [] && [m][1..] == [];
  }

  lemma FourTokens(a: Message, b: Message, c: Message, d: Message, estimate: string -> nat)
    ensures Tokens([a, b, c, d], estimate) ==
      estimate(a.content) + estimate(b.content) + estimate(c.content) + estimate(d.content)
  {
    TokensCons(d, [], estimate);
    TokensCons(c, [d], estimate);
    TokensCons(b, [c, d], estimate);
    TokensCons(a, [b, c, d], estimate);
    assert [d] + [] == [d] && [c] + [d] == [c, d] && [b] + [c, d] == [b, c, d] && [a] + [b, c, d] == [a, b, c, d];
  }

  lemma OrphaningClasses(q: string)
    ensures var ms := PrunedHistory.Orphaning(q);
      && Tail(ms) == ms[2..] && Mandatory(ms) == ms[2..] && Middle(ms) == ms[..2]
      && OfClass(ms, PinnedClass) == [] && Compacted(ms) == ms
  {
    AllOthers(PrunedHistory.Orphaning(q));
  }

  lemma OrphaningTokens(q: string, estimate: string -> nat)
    ensures var ms := PrunedHistory.Orphaning(q);
      && Tokens(ms[2..], estimate) == estimate("ok") + 3 * estimate(q)
      && Tokens(ms, estimate) == estimate("") + estimate("ok") + 4 * estimate(q)
  {
    var ask, call, answer := PrunedHistory.Ask(q), PrunedHistory.Call(), PrunedHistory.Answer(false);
    var ms, tail := PrunedHistory.Orphaning(q), [answer, ask, ask, ask];
    FourTokens(answer, ask, ask, ask, estimate);
    TokensCons(call, tail, estimate);
    TokensCons(ask, [call] + tail, estimate);
    assert ms[2..] == tail && ms == [ask] + ([call] + tail);
  }

  lemma TailAloneBreaks(q: string)
    ensures WellFormed(PrunedHistory.Orphaning(q)) && !WellFormed(PrunedTo(PrunedHistory.Orphaning(q), []))
  {
    var ms := PrunedHistory.Orphaning(q);
    PrunedHistory.QuestionsSettle(ms, 6, q);
    assert ms[..6] == ms;
    OrphaningClasses(q);
    UnpinnedPrunedIff(ms, []);
  }

  /** With any budget and any question of which three use it up, the last four messages stay alone, and they
      start with the result of a call that is gone. */
  lemma ClassPruningCanOrphan(q: string, budget: int, estimate: string -> nat, kept: seq<Message>, chosen: set<nat>)
    requires budget > 0 && 3 * estimate(q) >= budget
    requires var ms := PrunedHistory.Orphaning(q);
      Fills(ms, kept, chosen, budget - Tokens(Mandatory(ms), estimate), estimate)
    ensures var ms := PrunedHistory.Orphaning(q);
      && WellFormed(ms) && Compacted(ms) == ms && Tokens(ms, estimate) > budget
      && kept == [] && !WellFormed(PrunedTo(ms, kept))
  {
    var ms := PrunedHistory.Orphaning(q);
    OrphaningClasses(q);
    OrphaningTokens(q, estimate);
    NothingLeft(ms, kept, chosen, budget - Tokens(Mandatory(ms), estimate), estimate);
    TailAloneBreaks(q);
  }
}
