/** What the converted messages say: every message of the transcript, whole and in order. */
module ConvertedContents {
  import opened AnthropicProvider
  import opened Conversation
  import opened RoleCoalescing

  /** The blocks say what the message says: a result under the id of its call; or the text, which is left out only when
      it is empty and calls follow, and then each call with its id, name and input. */
  predicate Carries(m: Message, bs: seq<Block>)
  {
    if m.role.Tool? && m.toolCallId != "" then bs == [ToolResult(m.toolCallId, m.content)]
    else
      var t := if m.content == "" && m.calls != [] then 0 else 1;
      && |bs| == t + |m.calls| && (t == 1 ==> bs[0] == Text(m.content))
      && forall k :: 0 <= k < |m.calls| ==> bs[t + k] == ToolUse(m.calls[k].id, m.calls[k].name, m.calls[k].args)
  }

  /** The messages other than system messages, one after the other, each by its speaker. */
  ghost predicate Conveys(ms: seq<Message>, s: seq<(Speaker, Block)>)
  {
    if ms == [] then s == []
    else
      var init, m := ms[..|ms| - 1], ms[|ms| - 1];
      if m.role.System? then Conveys(init, s)
      else exists rest, bs ::
             && Conveys(init, rest) && Carries(m, bs)
             && s == rest + Tag(Param(if m.role.Assistant? then AssistantTurn else UserTurn, bs))
  }

  lemma {:induction false} FlatConveys(ms: seq<Message>)
    ensures Conveys(ms, Spoken(Flat(ms)))
  {
    if ms != [] {
      var init, m := ms[..|ms| - 1], ms[|ms| - 1];
      FlatConveys(init);
      if !m.role.System? {
        var p := Param(SpeakerOf(m.role), Blocks(m));
        SpokenSnoc(Flat(init), p);
        assert Carries(m, p.content);
        assert Flat(ms) == Flat(init) + [p];
      }
    }
  }

  /** Somebody speaks, and the assistant first. */
  predicate AssistantOpens(ms: seq<Message>)
  {
    ms != [] && if ms[0].role.System? then AssistantOpens(ms[1..]) else ms[0].role.Assistant?
  }

  lemma {:induction false} FlatFirst(ms: seq<Message>)
    ensures Flat(ms) == [] <==> Dialogue(ms) == []
    ensures Flat(ms) != [] ==> (Flat(ms)[0].role.AssistantTurn? <==> Dialogue(ms)[0].role.Assistant?)
  {
    if ms != [] { FlatFirst(ms[..|ms| - 1]); }
  }

  lemma {:induction false} OpensIff(ms: seq<Message>)
    ensures AssistantOpens(ms) <==> Dialogue(ms) != [] && Dialogue(ms)[0].role.Assistant?
  {
    if ms != [] {
      OpensIff(ms[1..]);
      DialogueFirst(ms);
    }
  }

  lemma {:induction false} DialogueFirst(ms: seq<Message>)
    requires ms != []
    ensures Dialogue(ms) == if ms[0].role.System? then Dialogue(ms[1..]) else [ms[0]] + Dialogue(ms[1..])
  {
    if |ms| > 1 {
      DialogueFirst(ms[..|ms| - 1]);
      assert ms[..|ms| - 1][1..] == ms[1..][..|ms[1..]| - 1];
    }
  }

  lemma SpokenCons(p: Param, out: seq<Param>)
    ensures Spoken([p] + out) == Tag(p) + Spoken(out)
  {
    if out == [] {
      assert [p] + out == [] + [p];
      SpokenSnoc([], p);
      assert Spoken([p] + out) == [] + Tag(p);
    } else {
      var init, last := out[..|out| - 1], out[|out| - 1];
      SpokenCons(p, init);
      assert [p] + out == ([p] + init) + [last];
      SpokenSnoc([p] + init, last);
    }
  }

  /** The converted list says the transcript, nothing lost, changed or out of place; only "(continue)" comes before it,
      said by the user, when the assistant would open. */
  lemma ConvertedConveys(ms: seq<Message>)
    ensures exists s ::
      && Conveys(ms, s)
      && Spoken(Converted(ms)) == (if AssistantOpens(ms) then [(UserTurn, Text("(continue)"))] else []) + s
  {
    var flat := Flat(ms);
    FlatConveys(ms);
    CoalesceSpoken(Opened(flat));
    FlatFirst(ms);
    OpensIff(ms);
    if AssistantOpens(ms) {
      SpokenCons(CONTINUE, flat);
      assert Tag(CONTINUE) == [(UserTurn, Text("(continue)"))];
    } else {
      assert [] + Spoken(flat) == Spoken(flat);
    }
  }

  // ---- the system text ----

  /** The system messages' texts with blank lines between them. */
  function SystemText(ms: seq<Message>): string
  {
    if ms == [] then ""
    else if !ms[0].role.System? then SystemText(ms[1..])
    else if exists m <- ms[1..] :: m.role.System? then ms[0].content + "\n\n" + SystemText(ms[1..])
    else ms[0].content
  }

  lemma {:induction false} PartsFirst(ms: seq<Message>)
    requires ms != []
    ensures SystemParts(ms) ==
      if ms[0].role.System? then [ms[0].content] + SystemParts(ms[1..]) else SystemParts(ms[1..])
  {
    if |ms| > 1 {
      PartsFirst(ms[..|ms| - 1]);
      assert ms[..|ms| - 1][1..] == ms[1..][..|ms[1..]| - 1];
    }
  }

  lemma {:induction false} JoinFirst(x: string, rest: seq<string>, sep: string)
    ensures JoinWith([x] + rest, sep) == if rest == [] then x else x + sep + JoinWith(rest, sep)
  {
    if rest == [] {
      assert [x] + rest == [x];
    } else {
      var init, last := rest[..|rest| - 1], rest[|rest| - 1];
      JoinFirst(x, init, sep);
      assert ([x] + rest)[..|rest|] == [x] + init;
      if init == [] {
        assert rest == [last];
      } else {
        assert x + sep + JoinWith(init, sep) + sep + last == x + sep + (JoinWith(init, sep) + sep + last);
      }
    }
  }

  lemma {:induction false} NoParts(ms: seq<Message>)
    ensures SystemParts(ms) == [] <==> !exists m <- ms :: m.role.System?
  {
    if ms != [] {
      PartsFirst(ms);
      NoParts(ms[1..]);
      assert forall m :: m in ms <==> m == ms[0] || m in ms[1..];
    }
  }

  lemma {:induction false} SystemTextIs(ms: seq<Message>)
    ensures JoinWith(SystemParts(ms), "\n\n") == SystemText(ms)
  {
    if ms != [] {
      SystemTextIs(ms[1..]);
      PartsFirst(ms);
      if ms[0].role.System? {
        JoinFirst(ms[0].content, SystemParts(ms[1..]), "\n\n");
        NoParts(ms[1..]);
      }
    }
  }
}
