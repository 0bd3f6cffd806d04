/** The Anthropic provider's message conversion: roles mapped, system text pulled out, consecutive
    same-role messages coalesced, and every tool_use answered in the very next message. */
module AnthropicProvider {
  import opened Conversation

  datatype Block =
    | Text(text: string)
    | ToolUse(id: string, name: string, input: string)
    | ToolResult(id: string, text: string)

  datatype Speaker = UserTurn | AssistantTurn

  datatype Param = Param(role: Speaker, content: seq<Block>)

  const CONTINUE := Param(UserTurn, [Text("(continue)")])

  /** Every role but assistant speaks as the user. */
  function SpeakerOf(r: Role): Speaker
  {
    if r.Assistant? then AssistantTurn else UserTurn
  }

  function Uses(calls: seq<ToolCall>): (r: seq<Block>)
    ensures |r| == |calls|
  {
    seq(|calls|, i requires 0 <= i < |calls| => ToolUse(calls[i].id, calls[i].name, calls[i].args))
  }

  function Blocks(m: Message): (r: seq<Block>)
    ensures r != []
  {
    if m.role.Tool? && m.toolCallId != "" then [ToolResult(m.toolCallId, m.content)]
    else if m.calls == [] then [Text(m.content)]
    else if m.content != "" then [Text(m.content)] + Uses(m.calls)
    else Uses(m.calls)
  }

  function Flat(ms: seq<Message>): (r: seq<Param>)
    ensures forall p <- r :: p.content != []
  {
    if ms == [] then []
    else
      var rest, m := Flat(ms[..|ms| - 1]), ms[|ms| - 1];
      if m.role.System? then rest else rest + [Param(SpeakerOf(m.role), Blocks(m))]
  }

  function SystemParts(ms: seq<Message>): seq<string>
  {
    if ms == [] then []
    else
      var rest, m := SystemParts(ms[..|ms| - 1]), ms[|ms| - 1];
      if m.role.System? then rest + [m.content] else rest
  }

  /** `strings.Join(parts, sep)`. */
  function JoinWith(parts: seq<string>, sep: string): string
  {
    if parts == [] then ""
    else if |parts| == 1 then parts[0]
    else JoinWith(parts[..|parts| - 1], sep) + sep + parts[|parts| - 1]
  }

  /** The conversation must open with the user. */
  function Opened(flat: seq<Param>): (r: seq<Param>)
    ensures (forall p <- flat :: p.content != []) ==> forall p <- r :: p.content != []
    ensures r != [] ==> r[0].role.UserTurn?
  {
    if flat != [] && flat[0].role.AssistantTurn? then [CONTINUE] + flat else flat
  }

  // ---- coalescing ----

  /** One more message: its blocks join the last message when the roles agree. */
  function Push(out: seq<Param>, m: Param): (r: seq<Param>)
    ensures r != []
  {
    if out != [] && out[|out| - 1].role == m.role
    then out[..|out| - 1] + [Param(m.role, out[|out| - 1].content + m.content)]
    else out + [m]
  }

  function Coalesce(input: seq<Param>): seq<Param>
  {
    if input == [] then [] else Push(Coalesce(input[..|input| - 1]), input[|input| - 1])
  }

  function Converted(ms: seq<Message>): seq<Param>
  {
    Coalesce(Opened(Flat(ms)))
  }

  lemma CoalesceNext(input: seq<Param>, i: nat)
    requires i < |input|
    ensures Coalesce(input[..i + 1]) == Push(Coalesce(input[..i]), input[i])
  {
    assert input[..i + 1][..i] == input[..i];
  }

  lemma CoalesceFirst(input: seq<Param>)
    requires input != []
    ensures Coalesce(input[..1]) == [input[0]]
  {
    CoalesceNext(input, 0);
  }

  /** Appending to the last message in place is a push. */
  lemma PushInPlace(out: seq<Param>, m: Param)
    requires out != [] && out[|out| - 1].role == m.role
    ensures out[|out| - 1 := out[|out| - 1].(content := out[|out| - 1].content + m.content)] == Push(out, m)
  {
  }

  method CoalesceConsecutiveRoles(input: seq<Param>) returns (out: seq<Param>)
    ensures out == Coalesce(input)
  {
    assert input[..|input|] == input;
    if |input| <= 1 {
      if |input| == 1 {
        CoalesceFirst(input);
      }
      return input;
    }
    out := [input[0]];
    CoalesceFirst(input);
    for i := 1 to |input|
      invariant out != [] && out == Coalesce(input[..i])
    {
      CoalesceNext(input, i);
      var m, last := input[i], |out| - 1;
      if out[last].role == m.role {
        PushInPlace(out, m);
        out := out[last := out[last].(content := out[last].content + m.content)];
      } else {
        out := out + [m];
      }
    }
  }

  method ConvertMessages(ms: seq<Message>) returns (messages: seq<Param>, systemText: string)
    ensures messages == Converted(ms)
    ensures systemText == JoinWith(SystemParts(ms), "\n\n")
  {
    var systemParts: seq<string> := [];
    messages := [];
    for i := 0 to |ms|
      invariant messages == Flat(ms[..i]) && systemParts == SystemParts(ms[..i])
    {
      assert ms[..i + 1][..i] == ms[..i];
      var m := ms[i];
      if m.role.System? {
        systemParts := systemParts + [m.content];
        continue;
      }
      var content: seq<Block>;
      if m.role.Tool? && m.toolCallId != "" {
        content := [ToolResult(m.toolCallId, m.content)];
      } else if |m.calls| > 0 {
        content := [];
        if m.content != "" {
          content := [Text(m.content)];
        }
        content := AppendUses(content, m.calls);
        assert [] + Uses(m.calls) == Uses(m.calls);
      } else {
        content := [Text(m.content)];
      }
      messages := messages + [Param(SpeakerOf(m.role), content)];
    }
    assert ms[..|ms|] == ms;
    if messages != [] && messages[0].role.AssistantTurn? {
      messages := [CONTINUE] + messages;
    }
    messages := CoalesceConsecutiveRoles(messages);
    systemText := JoinWith(systemParts, "\n\n");
  }

  method AppendUses(content: seq<Block>, calls: seq<ToolCall>) returns (r: seq<Block>)
    ensures r == content + Uses(calls)
  {
    r := content;
    for i := 0 to |calls|
      invariant |r| == |content| + i
      invariant forall k :: 0 <= k < |content| ==> r[k] == content[k]
      invariant forall k :: 0 <= k < i ==> r[|content| + k] == Uses(calls)[k]
    {
      r := r + [ToolUse(calls[i].id, calls[i].name, calls[i].args)];
    }
  }
}
