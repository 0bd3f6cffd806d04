/** What pruning keeps, message by message and chunk by chunk: whole, in order, and as much as fits. */
module PruningContents {
  import opened Arithmetic
  import opened Conversation
  import opened HistoryPruner
  import opened Subsequences
  import opened Text
  import ContextMessages
  import ContextPruner
  import Decimal
  import PrunedHistory

  // ---- the agent loop's history ----

  const IS_PINNED: Message -> bool := (m: Message) => m.pinned
  const IS_REMOVED: Message -> bool := (m: Message) => !m.pinned
  const IS_REMOVED_RESULT: Message -> bool := (m: Message) => !m.pinned && m.role.Tool?

  /** Exactly the pinned messages, in order. */
  lemma {:induction false} PinnedFiltered(ms: seq<Message>)
    ensures Filters(PinnedOf(ms), ms, IS_PINNED)
  {
    if ms == [] {
      FiltersNone(IS_PINNED);
    } else {
      var init, m := ms[..|ms| - 1], ms[|ms| - 1];
      assert ms == init + [m];
      PinnedFiltered(init);
      FiltersSnoc(PinnedOf(init), init, IS_PINNED, m, ms);
    }
  }

  lemma PrunedIs(ms: seq<Message>, maxTokens: int, cost: string -> nat)
    requires |ms| > 5
    ensures var keep := KeepOf(ms, maxTokens, cost);
      Pruned(ms, maxTokens, cost)
      == [ms[0], PrunedHistory.NoticeOf(ms, keep)] + PinnedOf(ms[1..]) + ms[|ms| - keep..]
  {
  }

  /** The result: the first message, the notice, the pinned messages in order, and the last `keep` as they were. */
  lemma PrunedParts(ms: seq<Message>, maxTokens: int, cost: string -> nat) returns (pinned: seq<Message>)
    requires |ms| > 5
    ensures var keep := KeepOf(ms, maxTokens, cost);
      && Pruned(ms, maxTokens, cost) == [ms[0], PrunedHistory.NoticeOf(ms, keep)] + pinned + ms[|ms| - keep..]
      && Filters(pinned, ms[1..], IS_PINNED)
  {
    pinned := PinnedOf(ms[1..]);
    PrunedIs(ms, maxTokens, cost);
    PinnedFiltered(ms[1..]);
  }

  /** As many of the last messages are counted as fit: their unpinned tokens and all pinned ones stay within 60% of the
      budget or within the pinned ones alone; and unless all messages are counted, one more unpinned message would
      exceed the 60%. */
  lemma FillsItsShare(ms: seq<Message>, maxTokens: int, cost: string -> nat, stop: nat)
    requires ms != [] && FitsFrom(ms, KeepBudget(ms, maxTokens, cost), cost, stop)
    ensures var sixty, pinned := Quotient(maxTokens * 60, 100), PinnedTokens(ms[1..], cost);
      && UnpinnedTokens(ms[stop..], cost) + pinned <= (if sixty < pinned then pinned else sixty)
      && (stop > 1 ==> UnpinnedTokens(ms[stop - 1..], cost) + pinned > sixty)
  {
  }

  /** What is reported as removed are all unpinned messages, and among them the tool messages, of the part between the
      first message and the suffix. */
  lemma {:induction false} RemovedCounts(ms: seq<Message>) returns (removed: seq<Message>, tools: seq<Message>)
    ensures Filters(removed, ms, IS_REMOVED) && |removed| == Unpinned(ms)
    ensures Filters(tools, ms, IS_REMOVED_RESULT) && |tools| == UnpinnedTools(ms)
  {
    if ms == [] {
      removed, tools := [], [];
      FiltersNone(IS_REMOVED);
      FiltersNone(IS_REMOVED_RESULT);
    } else {
      var init, m := ms[..|ms| - 1], ms[|ms| - 1];
      assert ms == init + [m];
      var r, t := RemovedCounts(init);
      UnpinnedSnoc(init, m);
      FiltersSnoc(r, init, IS_REMOVED, m, ms);
      FiltersSnoc(t, init, IS_REMOVED_RESULT, m, ms);
      removed, tools := if !m.pinned then r + [m] else r, if !m.pinned && m.role.Tool? then t + [m] else t;
    }
  }

  /** Reading the two numbers back from a notice. */
  function ReadNotice(text: string): (int, int)
  {
    var afterColon := Cut(text, ':').1;
    var numbers := if afterColon == "" then "" else afterColon[1..];
    (Decimal.Parse(Cut(numbers, ' ').0), Decimal.Parse(Cut(Cut(numbers, '(').1, ' ').0))
  }

  lemma DigitsOnly(n: nat, c: char)
    requires c < '0' || c > '9'
    ensures c !in Decimal.Print(n)
  {
  }

  /** The texts between two separators: `x`, then a space, then a bracket, then `y` and a space. */
  lemma ReadsTwo(head: string, x: string, words: string, y: string, tail: string, text: string)
    requires ':' !in head && ' ' !in x && '(' !in x && '(' !in words && ' ' !in y
    requires text == head + ":" + (" " + (x + " " + (words + "(" + (y + " " + tail))))
    ensures var numbers := Cut(text, ':').1;
      numbers != "" && Cut(numbers[1..], ' ').0 == x && Cut(Cut(numbers[1..], '(').1, ' ').0 == y
  {
    var second := y + " " + tail;
    var numbers := x + " " + (words + "(" + second);
    CutAt(head, ':', " " + numbers);
    assert (" " + numbers)[1..] == numbers;
    CutAt(x, ' ', words + "(" + second);
    assert numbers == (x + " " + words) + "(" + second;
    CutAt(x + " " + words, '(', second);
    CutAt(y, ' ', tail);
  }

  lemma Regroup(a: string, x: string, b: string, y: string, c: string, t: string, head: string, words: string,
                rest: string)
    requires a == head + ": " && b == " " + words + "(" && c == " " + rest
    ensures a + x + b + y + c + t == head + ":" + (" " + (x + " " + (words + "(" + (y + " " + (rest + t)))))
  {
    assert a == head + ":" + " ";
    Five(head + ":", " ", x, b, y + c + t);
    assert a + x + b + y + c + t == head + ":" + " " + x + b + (y + c + t);
    assert b + (y + c + t) == " " + (words + "(" + (y + " " + (rest + t)));
  }

  lemma Five(a: string, b: string, c: string, d: string, e: string)
    ensures a + b + c + d + e == a + (b + (c + (d + e)))
  {
  }

  lemma NoticeText(pruned: nat, tools: nat)
    ensures Notice(pruned, tools).content == "[Context pruned: " + Decimal.Print(pruned) + " earlier messages removed ("
                                             + Decimal.Print(tools) + " tool results). " + HINT
  {
  }

  /** The notice tells both numbers, in this order, in a system message that is not pinned. */
  lemma NoticeTells(pruned: nat, tools: nat)
    ensures var m := Notice(pruned, tools);
      m.role.System? && !m.pinned && m.calls == [] && ReadNotice(m.content) == (pruned, tools)
  {
    NoticeText(pruned, tools);
    NumbersRead(pruned, tools, HINT, Notice(pruned, tools).content);
    Decimal.ParsePrint(pruned);
    Decimal.ParsePrint(tools);
  }

  lemma NoSeparators()
    ensures ':' !in "[Context pruned" && '(' !in "earlier messages removed "
  {
  }

  lemma NumbersRead(pruned: nat, tools: nat, hint: string, text: string)
    requires text == "[Context pruned: " + Decimal.Print(pruned) + " earlier messages removed (" + Decimal.Print(tools)
                     + " tool results). " + hint
    ensures ReadNotice(text) == (Decimal.Parse(Decimal.Print(pruned)), Decimal.Parse(Decimal.Print(tools)))
  {
    var x, y := Decimal.Print(pruned), Decimal.Print(tools);
    var head, words, rest := "[Context pruned", "earlier messages removed ", "tool results). ";
    Regroup("[Context pruned: ", x, " earlier messages removed (", y, " tool results). ", hint, head, words, rest);
    DigitsOnly(pruned, ' ');
    DigitsOnly(pruned, '(');
    DigitsOnly(tools, ' ');
    NoSeparators();
    ReadsTwo(head, x, words, y, rest + hint, text);
  }

  // ---- code chunks ----

  /** Exactly the chosen elements, in their original order. */
  lemma {:induction false} PickPicks<T(!new)>(s: seq<T>, chosen: set<nat>)
    ensures Picks(ContextPruner.Pick(s, chosen), s, chosen)
  {
    if s == [] {
      PicksNone<T>(chosen);
    } else {
      var init, x := s[..|s| - 1], s[|s| - 1];
      assert s == init + [x];
      PickPicks(init, chosen);
      PicksSnoc(ContextPruner.Pick(init, chosen), init, chosen, x, s);
    }
  }

  // ---- context messages ----

  function InClass(c: ContextMessages.Class): Message -> bool
  {
    (m: Message) => ContextMessages.ClassOf(m) == c
  }

  /** Exactly the messages of a class, in order. */
  lemma {:induction false} ClassFiltered(ms: seq<Message>, c: ContextMessages.Class)
    ensures Filters(ContextMessages.OfClass(ms, c), ms, InClass(c))
  {
    if ms == [] {
      FiltersNone(InClass(c));
    } else {
      var init, m := ms[..|ms| - 1], ms[|ms| - 1];
      assert ms == init + [m];
      ClassFiltered(init, c);
      FiltersSnoc(ContextMessages.OfClass(init, c), init, InClass(c), m, ms);
    }
  }

  /** System messages are one class, other pinned messages the second, the rest the third. */
  lemma ClassIs(m: Message)
    ensures ContextMessages.ClassOf(m) == ContextMessages.SystemClass <==> m.role.System?
    ensures ContextMessages.ClassOf(m) == ContextMessages.PinnedClass <==> !m.role.System? && m.pinned
    ensures ContextMessages.ClassOf(m) == ContextMessages.OtherClass <==> !m.role.System? && !m.pinned
  {
  }

  /** The chosen messages from `i` on, in order. */
  lemma {:induction false} PickFromPicks(s: seq<Message>, chosen: set<nat>, i: nat) returns (idx: seq<nat>)
    requires i <= |s|
    ensures PickedBy(ContextMessages.PickFrom(s, chosen, i), s, idx)
    ensures forall k: nat :: k in idx <==> i <= k < |s| && k in chosen
    decreases |s| - i
  {
    if i == |s| {
      idx := [];
    } else {
      var rest := PickFromPicks(s, chosen, i + 1);
      if i in chosen {
        forall k | 0 <= k < |rest| ensures i < rest[k] { assert rest[k] in rest; }
        PickedCons(ContextMessages.PickFrom(s, chosen, i + 1), s, rest, i);
        idx := [i] + rest;
      } else {
        idx := rest;
      }
    }
  }

  /** The size is told in whole bytes, kilobytes or megabytes, rounded down. */
  ghost predicate SizeTold(n: nat, text: string, unit: string, size: nat)
  {
    exists q: nat :: text == Decimal.Print(q) + unit && q * size <= n < q * size + size
  }

  lemma HumanBytesTells(n: nat)
    ensures n < 1024 ==> SizeTold(n, ContextMessages.HumanBytes(n), "B", 1)
    ensures 1024 <= n < 1024 * 1024 ==> SizeTold(n, ContextMessages.HumanBytes(n), "KB", 1024)
    ensures 1024 * 1024 <= n ==> SizeTold(n, ContextMessages.HumanBytes(n), "MB", 1024 * 1024)
  {
    if n < 1024 {
      assert ContextMessages.HumanBytes(n) == Decimal.Print(n) + "B" && n * 1 <= n < n * 1 + 1;
    } else if n < 1024 * 1024 {
      var q := n / 1024;
      assert ContextMessages.HumanBytes(n) == Decimal.Print(q) + "KB" && q * 1024 <= n < q * 1024 + 1024;
    } else {
      var q := n / (1024 * 1024);
      assert ContextMessages.HumanBytes(n) == Decimal.Print(q) + "MB"
          && q * (1024 * 1024) <= n < q * (1024 * 1024) + 1024 * 1024;
    }
  }

  /** The first and the last 1000 bytes of `before` with a note between them. */
  predicate EndsKept(before: string, note: string, after: string)
    requires |before| > 2000
  {
    && |after| == 2000 + |note|
    && after[..1000] == before[..1000] && after[|after| - 1000..] == before[|before| - 1000..]
    && after[1000..|after| - 1000] == note
  }

  lemma TruncatedIs(m: Message)
    requires m.role.Tool? && |m.content| > 2000
    ensures ContextMessages.Truncated(m).content ==
      m.content[..1000] + ContextMessages.Omission(|m.content| - 2000) + m.content[|m.content| - 1000..]
  {
  }

  lemma TwoEnds(before: string, note: string, after: string)
    requires |before| > 2000 && after == before[..1000] + note + before[|before| - 1000..]
    ensures EndsKept(before, note, after)
  {
    var a, c := before[..1000], before[|before| - 1000..];
    assert (a + note + c)[1000..|note| + 1000] == note;
  }

  /** A tool result of more than 2000 bytes keeps its first and its last 1000 and says between them how much was left
      out; everything else about a message, and every other message, stays. */
  lemma TruncatedKeeps(m: Message)
    ensures var t, n := ContextMessages.Truncated(m), |m.content|;
      && t == m.(content := t.content)
      && (!m.role.Tool? || n <= 2000 ==> t == m)
      && (m.role.Tool? && n > 2000 ==> EndsKept(m.content, ContextMessages.Omission(n - 2000), t.content))
  {
    var t, n := ContextMessages.Truncated(m), |m.content|;
    if m.role.Tool? && n > 2000 {
      TruncatedIs(m);
      TwoEnds(m.content, ContextMessages.Omission(n - 2000), t.content);
    }
  }
}
