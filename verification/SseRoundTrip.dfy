/** What a server prints and what successive Recv calls deliver. */
module SseRoundTrip {
  import opened SseTransport
  import opened Text

  /** A line inside an event: its name, some data, or anything the parser passes over (a comment, an id, a
      retry, an unknown field). */
  datatype Line = Name(text: string) | Data(text: string) | Aside(text: string)

  /** A printed piece of the stream: an event, or a line between events that is neither `event:` nor `data:`
      and may be blank. */
  datatype Item = Noise(line: string) | Event(lines: seq<Line>)

  function PrintLine(l: Line): string
  {
    match l
    case Name(text) => "event: " + text + "\n"
    case Data(text) => "data: " + text + "\n"
    case Aside(text) => text + "\n"
  }

  function PrintLines(lines: seq<Line>): string
  {
    if lines == [] then "" else PrintLine(lines[0]) + PrintLines(lines[1..])
  }

  function Print(it: Item): string
  {
    match it
    case Noise(line) => line + "\n"
    case Event(lines) => PrintLines(lines) + "\n"
  }

  function PrintAll(items: seq<Item>): string
  {
    if items == [] then "" else Print(items[0]) + PrintAll(items[1..])
  }

  /** Neither the name nor data of an event. */
  predicate Passed(line: string)
  {
    !HasPrefix(TrimRight(line), "event:") && !HasPrefix(TrimRight(line), "data:")
  }

  predicate PrintableLine(l: Line)
  {
    '\n' !in l.text && (l.Aside? ==> Passed(l.text) && TrimRight(l.text) != "")
  }

  predicate Printable(it: Item)
  {
    match it
    case Noise(line) => '\n' !in line && Passed(line)
    case Event(lines) => forall l <- lines :: PrintableLine(l)
  }

  /** The data of an event, line by line. */
  function Texts(lines: seq<Line>): seq<string>
  {
    if lines == [] then []
    else if lines[0].Data? then [lines[0].text] + Texts(lines[1..])
    else Texts(lines[1..])
  }

  /** The last name given, or the one before. */
  function NameOf(name: string, lines: seq<Line>): string
    decreases |lines|
  {
    if lines == [] then name
    else NameOf(if lines[0].Name? then TrimSpace(lines[0].text) else name, lines[1..])
  }

  /** What the data lines of an event amount to: carriage returns at line ends go, and a line that comes
      while nothing has been collected replaces it. */
  function Collected(data: string, lines: seq<string>): string
    decreases |lines|
  {
    if lines == [] then data
    else Collected(if data == "" then TrimRight(lines[0]) else data + "\n" + TrimRight(lines[0]), lines[1..])
  }

  predicate IsMessage(it: Item)
  {
    it.Event? && (NameOf("", it.lines) == "" || NameOf("", it.lines) == "message")
  }

  /** What has been collected when the blank line comes. */
  function DataOf(it: Item): string
    requires it.Event?
  {
    Collected("", Texts(it.lines))
  }

  /** The messages that reach the caller. */
  function Delivered(items: seq<Item>): seq<string>
  {
    if items == [] then []
    else if IsMessage(items[0]) && DataOf(items[0]) != "" then [DataOf(items[0])] + Delivered(items[1..])
    else Delivered(items[1..])
  }

  function LastEndpoint(items: seq<Item>, url: string): string
  {
    if items == [] then url
    else if items[0].Event? && NameOf("", items[0].lines) == "endpoint" && DataOf(items[0]) != ""
    then LastEndpoint(items[1..], DataOf(items[0]))
    else LastEndpoint(items[1..], url)
  }

  /** Calling Recv until the stream ends: the payloads, and the final post URL. */
  function RecvAll(stream: string, url: string): (seq<string>, string)
    decreases |stream|
  {
    match Parse(stream, NO_FRAME, url)
    case End(u) => ([], u)
    case Got(payload, rest, u) => ([payload] + RecvAll(rest, u).0, RecvAll(rest, u).1)
  }

  // ---- one line ----

  lemma BreakAt(line: string, rest: string)
    requires '\n' !in line
    ensures Break(line + "\n" + rest) == |line|
  {
    var s := line + "\n" + rest;
    assert s[|line|] == '\n';
    assert forall k :: 0 <= k < |line| ==> s[k] == line[k];
    forall k | |line| < k <= |s| ensures '\n' in s[..k] {
      assert s[..k][|line|] == '\n';
    }
  }

  lemma ParseLine(line: string, rest: string, f: Frame, url: string)
    requires '\n' !in line
    ensures Parse(line + "\n" + rest, f, url) == AfterLine(TrimRight(line), rest, f, url)
  {
    BreakAt(line, rest);
    var s := line + "\n" + rest;
    assert s[..|line|] == line && s[|line| + 1..] == rest;
  }

  lemma {:induction false} TrimRightPrefix(p: string, l: string)
    requires p != "" && p[|p| - 1] != '\r' && p[|p| - 1] != '\n'
    ensures TrimRight(p + l) == p + TrimRight(l)
  {
    if l == "" {
      assert p + l == p;
    } else if l[|l| - 1] == '\r' || l[|l| - 1] == '\n' {
      TrimRightPrefix(p, l[..|l| - 1]);
      assert (p + l)[..|p + l| - 1] == p + l[..|l| - 1];
    }
  }

  /** The event after a line of data. */
  function Gathered(f: Frame, payload: string): Frame
  {
    f.(data := if f.data == "" then payload else f.data + "\n" + payload)
  }

  lemma CollectedOne(f: Frame, l: string)
    ensures f.(data := Collected(f.data, [l])) == Gathered(f, TrimRight(l))
  {
  }

  lemma SpacedField(payload: string, rest: string, f: Frame, url: string)
    ensures AfterLine("data: " + payload, rest, f, url) == Parse(rest, Gathered(f, payload), url)
  {
    var t := "data: " + payload;
    assert t[..5] == "data:" && t[6..] == payload && t[0] == 'd';
  }

  lemma ParseDataLine(l: string, rest: string, f: Frame, url: string)
    requires '\n' !in l
    ensures Parse("data: " + l + "\n" + rest, f, url) == Parse(rest, f.(data := Collected(f.data, [l])), url)
  {
    ParseLine("data: " + l, rest, f, url);
    TrimRightPrefix("data: ", l);
    SpacedField(TrimRight(l), rest, f, url);
    CollectedOne(f, l);
  }

  lemma {:induction false} TrimSpaceLast(s: string)
    requires s != "" && IsSpace(s[|s| - 1])
    ensures TrimSpace(s) == TrimSpace(s[..|s| - 1])
  {
    if |s| > 1 && IsSpace(s[0]) {
      TrimSpaceLast(s[1..]);
      assert s[1..][..|s| - 2] == s[..|s| - 1][1..];
    }
  }

  lemma {:induction false} TrimSpaceRight(s: string)
    ensures TrimSpace(TrimRight(s)) == TrimSpace(s)
  {
    if s != "" && TrimRight(s) != s {
      TrimSpaceLast(s);
      TrimSpaceRight(s[..|s| - 1]);
    }
  }

  lemma ParseNameLine(name: string, rest: string, f: Frame, url: string)
    requires '\n' !in name
    ensures Parse("event: " + name + "\n" + rest, f, url) == Parse(rest, f.(eventType := TrimSpace(name)), url)
  {
    var line := "event: " + name;
    ParseLine(line, rest, f, url);
    TrimRightPrefix("event: ", name);
    var t := TrimRight(line);
    assert t[..6] == "event:" && t[6..] == " " + TrimRight(name) && t[0] == 'e';
    assert (" " + TrimRight(name))[1..] == TrimRight(name);
    TrimSpaceRight(name);
  }

  /** What a line does to the event being assembled. */
  function AfterPart(f: Frame, l: Line): Frame
  {
    match l
    case Name(text) => f.(eventType := TrimSpace(text))
    case Data(text) => f.(data := Collected(f.data, [text]))
    case Aside(_) => f
  }

  lemma ParsePart(l: Line, rest: string, f: Frame, url: string)
    requires PrintableLine(l)
    ensures Parse(PrintLine(l) + rest, f, url) == Parse(rest, AfterPart(f, l), url)
  {
    match l
    case Name(text) => ParseNameLine(text, rest, f, url);
    case Data(text) => ParseDataLine(text, rest, f, url);
    case Aside(text) => ParseLine(text, rest, f, url);
  }

  /** The lines of an event, and its blank line. */
  lemma {:induction false} ParseParts(lines: seq<Line>, rest: string, f: Frame, url: string)
    requires forall l <- lines :: PrintableLine(l)
    ensures Parse(PrintLines(lines) + ("\n" + rest), f, url) ==
      AfterLine("", rest, Frame(NameOf(f.eventType, lines), Collected(f.data, Texts(lines))), url)
    decreases |lines|
  {
    if lines == [] {
      assert PrintLines(lines) + ("\n" + rest) == "" + "\n" + rest;
      ParseLine("", rest, f, url);
    } else {
      var tail := PrintLines(lines[1..]) + ("\n" + rest);
      assert PrintLines(lines) + ("\n" + rest) == PrintLine(lines[0]) + tail;
      ParsePart(lines[0], tail, f, url);
      ParseParts(lines[1..], rest, AfterPart(f, lines[0]), url);
      CollectedNext(f.data, lines);
    }
  }

  lemma CollectedNext(data: string, lines: seq<Line>)
    requires lines != []
    ensures Collected(data, Texts(lines)) ==
      Collected(if lines[0].Data? then Collected(data, [lines[0].text]) else data, Texts(lines[1..]))
  {
    if lines[0].Data? {
      assert Texts(lines)[1..] == Texts(lines[1..]) && [lines[0].text][1..] == [];
    }
  }

  lemma PrintedThen(it: Item, rest: string)
    requires it.Event?
    ensures Print(it) + rest == PrintLines(it.lines) + ("\n" + rest)
  {
  }

  /** A printed event, with a following stream: what its blank line does. */
  lemma ParseEvent(it: Item, rest: string, url: string)
    requires it.Event? && Printable(it)
    ensures Parse(Print(it) + rest, NO_FRAME, url) == AfterLine("", rest, Frame(NameOf("", it.lines), DataOf(it)), url)
  {
    PrintedThen(it, rest);
    ParseParts(it.lines, rest, NO_FRAME, url);
  }

  lemma ParseNoise(line: string, rest: string, url: string)
    requires Printable(Noise(line))
    ensures Parse(Print(Noise(line)) + rest, NO_FRAME, url) == Parse(rest, NO_FRAME, url)
  {
    ParseLine(line, rest, NO_FRAME, url);
  }

  // ---- the whole stream ----

  /** Successive Recv calls deliver the messages in order, skip everything else, and leave the post URL at
      the last endpoint; a cut-off last line changes nothing. */
  lemma {:induction false} RecvDelivers(items: seq<Item>, cutOff: string, url: string)
    requires (forall it <- items :: Printable(it)) && '\n' !in cutOff
    ensures RecvAll(PrintAll(items) + cutOff, url) == (Delivered(items), LastEndpoint(items, url))
    decreases |items|
  {
    if items == [] {
      assert PrintAll(items) + cutOff == cutOff;
      assert Parse(cutOff, NO_FRAME, url) == End(url);
    } else {
      var rest := PrintAll(items[1..]) + cutOff;
      assert PrintAll(items) + cutOff == Print(items[0]) + rest;
      match items[0]
      case Noise(line) =>
        ParseNoise(line, rest, url);
        RecvDelivers(items[1..], cutOff, url);
      case Event(lines) =>
        ParseEvent(items[0], rest, url);
        var data := DataOf(items[0]);
        RecvDelivers(items[1..], cutOff, if NameOf("", lines) == "endpoint" && data != "" then data else url);
    }
  }

  // ---- when the payload itself arrives ----

  /** The lines of a payload, newline-separated. */
  function Payload(lines: seq<string>): string
  {
    if lines == [] then "" else lines[0] + Continued(lines[1..])
  }

  function Continued(lines: seq<string>): string
  {
    if lines == [] then "" else "\n" + lines[0] + Continued(lines[1..])
  }

  predicate EndsInReturn(l: string)
  {
    l != "" && l[|l| - 1] == '\r'
  }

  /** First line non-empty, and no line ending in a carriage return. */
  predicate Clean(lines: seq<string>)
  {
    lines != [] && lines[0] != "" && forall l <- lines :: !EndsInReturn(l)
  }

  lemma TrimRightIff(l: string)
    requires '\n' !in l
    ensures if EndsInReturn(l) then |TrimRight(l)| < |l| else TrimRight(l) == l
  {
    if l != "" { assert l[|l| - 1] in l; }
  }

  lemma {:induction false} CollectedClean(data: string, lines: seq<string>)
    requires data != "" && forall l <- lines :: '\n' !in l && !EndsInReturn(l)
    ensures Collected(data, lines) == data + Continued(lines)
    decreases |lines|
  {
    if lines == [] {
      assert data + "" == data;
    } else {
      TrimRightIff(lines[0]);
      CollectedClean(data + "\n" + lines[0], lines[1..]);
      assert data + "\n" + lines[0] + Continued(lines[1..]) == data + ("\n" + lines[0] + Continued(lines[1..]));
    }
  }

  lemma {:induction false} CollectedShorter(data: string, lines: seq<string>)
    requires forall l <- lines :: '\n' !in l
    ensures |Collected(data, lines)| <= |data| + |Continued(lines)|
    ensures (data == "" && lines != []) || (exists l :: l in lines && EndsInReturn(l)) ==>
      |Collected(data, lines)| < |data| + |Continued(lines)|
    decreases |lines|
  {
    if lines != [] {
      TrimRightIff(lines[0]);
      CollectedShorter(if data == "" then TrimRight(lines[0]) else data + "\n" + TrimRight(lines[0]), lines[1..]);
      assert forall l :: l in lines <==> l == lines[0] || l in lines[1..];
    }
  }

  /** A message's payload arrives as sent exactly when its lines are clean. */
  lemma ArrivesIffClean(lines: seq<string>)
    requires forall l <- lines :: '\n' !in l
    ensures Collected("", lines) != "" && Collected("", lines) == Payload(lines) <==> Clean(lines)
  {
    if lines != [] {
      TrimRightIff(lines[0]);
      assert Collected("", lines) == Collected(TrimRight(lines[0]), lines[1..]);
      assert forall l :: l in lines <==> l == lines[0] || l in lines[1..];
      CollectedShorter(TrimRight(lines[0]), lines[1..]);
      if Clean(lines) {
        CollectedClean(lines[0], lines[1..]);
      }
    }
  }

  /** The payloads of the message events, as the server meant them. */
  function Sent(items: seq<Item>): seq<string>
  {
    if items == [] then []
    else if IsMessage(items[0]) then [Payload(Texts(items[0].lines))] + Sent(items[1..])
    else Sent(items[1..])
  }

  ghost predicate AllClean(items: seq<Item>)
  {
    forall i :: 0 <= i < |items| && IsMessage(items[i]) ==> Clean(Texts(items[i].lines))
  }

  lemma {:induction false} NoMoreThanSent(items: seq<Item>)
    ensures |Delivered(items)| <= |Sent(items)|
  {
    if items != [] {
      NoMoreThanSent(items[1..]);
    }
  }

  lemma {:induction false} DeliveredIffClean(items: seq<Item>)
    requires forall it <- items :: Printable(it)
    ensures Delivered(items) == Sent(items) <==> AllClean(items)
  {
    if items != [] {
      DeliveredIffClean(items[1..]);
      NoMoreThanSent(items[1..]);
      AllCleanStep(items);
      assert Printable(items[0]);
      if IsMessage(items[0]) {
        var lines := Texts(items[0].lines);
        TextsPlain(items[0].lines);
        ArrivesIffClean(lines);
        SameHeadTail(Collected("", lines), Delivered(items[1..]), Payload(lines), Sent(items[1..]));
      }
    }
  }

  lemma {:induction false} TextsPlain(lines: seq<Line>)
    requires forall l <- lines :: PrintableLine(l)
    ensures forall t <- Texts(lines) :: '\n' !in t
  {
    if lines != [] {
      TextsPlain(lines[1..]);
      assert PrintableLine(lines[0]);
    }
  }

  lemma AllCleanStep(items: seq<Item>)
    requires items != []
    ensures AllClean(items) <==> (IsMessage(items[0]) ==> Clean(Texts(items[0].lines))) && AllClean(items[1..])
  {
    if AllClean(items) {
      forall i | 0 <= i < |items[1..]| && IsMessage(items[1..][i]) ensures Clean(Texts(items[1..][i].lines)) {
        assert items[1..][i] == items[i + 1];
      }
    }
    if AllClean(items[1..]) {
      assert forall i :: 0 < i < |items| ==> items[i] == items[1..][i - 1];
    }
  }

  lemma SameHeadTail(x: string, xs: seq<string>, y: string, ys: seq<string>)
    ensures [x] + xs == [y] + ys <==> x == y && xs == ys
  {
    if [x] + xs == [y] + ys {
      assert ([x] + xs)[0] == x && ([y] + ys)[0] == y;
      assert ([x] + xs)[1..] == xs && ([y] + ys)[1..] == ys;
    }
  }

  /** The round trip: Recv returns exactly the payloads sent, in order, if and only if every message has a
      non-empty first line and no line ending in a carriage return. */
  lemma RoundTripIff(items: seq<Item>, cutOff: string, url: string)
    requires (forall it <- items :: Printable(it)) && '\n' !in cutOff
    ensures RecvAll(PrintAll(items) + cutOff, url).0 == Sent(items) <==> AllClean(items)
    ensures RecvAll(PrintAll(items) + cutOff, url).1 == LastEndpoint(items, url)
  {
    RecvDelivers(items, cutOff, url);
    DeliveredIffClean(items);
  }

  /** A message whose first line is empty arrives without it: "\n{}" as "{}". */
  lemma EmptyFirstLineLost(url: string)
    ensures var sent := [Event([Data(""), Data("{}")])];
      RecvAll(PrintAll(sent), url).0 == ["{}"] && Sent(sent) == ["\n{}"]
  {
    var lines, sent := [Data(""), Data("{}")], [Event([Data(""), Data("{}")])];
    assert PrintAll(sent) + "" == PrintAll(sent);
    RecvDelivers(sent, "", url);
    assert lines[1..] == [Data("{}")] && lines[1..][1..] == [];
    assert Texts(lines) == ["", "{}"] && ["", "{}"][1..] == ["{}"] && ["{}"][1..] == [];
    assert TrimRight("") == "" && TrimRight("{}") == "{}";
    assert Collected("", ["", "{}"]) == Collected("", ["{}"]) == Collected("{}", []) == "{}";
    assert Continued(["{}"]) == "\n" + "{}" + "" == "\n{}";
    assert Payload(["", "{}"]) == "" + Continued(["{}"]) == "\n{}";
    assert NameOf("", lines) == NameOf("", lines[1..]) == NameOf("", []) == "";
    assert sent[1..] == [];
  }

  // ---- other spellings of a line ----

  /** The blank after the colon is optional: without it a name is read alike, and so is data that does not begin with
      a blank itself. */
  lemma BlankOptional(text: string, rest: string, f: Frame, url: string)
    requires '\n' !in text
    ensures Parse("event:" + text + "\n" + rest, f, url) == Parse("event: " + text + "\n" + rest, f, url)
    ensures (text != "" ==> text[0] != ' ') ==>
      Parse("data:" + text + "\n" + rest, f, url) == Parse("data: " + text + "\n" + rest, f, url)
  {
    UnspacedName(text, rest, f, url);
    if text != "" ==> text[0] != ' ' { UnspacedData(text, rest, f, url); }
  }

  lemma UnspacedName(text: string, rest: string, f: Frame, url: string)
    requires '\n' !in text
    ensures Parse("event:" + text + "\n" + rest, f, url) == Parse("event: " + text + "\n" + rest, f, url)
  {
    ParseLine("event:" + text, rest, f, url);
    TrimRightPrefix("event:", text);
    var t := "event:" + TrimRight(text);
    assert t[..6] == "event:" && t[6..] == TrimRight(text) && t[0] == 'e';
    TrimSpaceRight(text);
    ParseNameLine(text, rest, f, url);
  }

  lemma UnspacedField(payload: string, rest: string, f: Frame, url: string)
    requires payload != "" ==> payload[0] != ' '
    ensures AfterLine("data:" + payload, rest, f, url) == Parse(rest, Gathered(f, payload), url)
  {
    var t := "data:" + payload;
    assert t[..5] == "data:" && t[5..] == payload && t[0] == 'd';
  }

  lemma UnspacedData(text: string, rest: string, f: Frame, url: string)
    requires '\n' !in text && (text != "" ==> text[0] != ' ')
    ensures Parse("data:" + text + "\n" + rest, f, url) == Parse("data: " + text + "\n" + rest, f, url)
  {
    ParseLine("data:" + text, rest, f, url);
    TrimRightPrefix("data:", text);
    UnspacedField(TrimRight(text), rest, f, url);
    ParseDataLine(text, rest, f, url);
    CollectedOne(f, text);
  }

  predicate AllSpace(s: string)
  {
    forall c <- s :: IsSpace(c)
  }

  /** Trimming a name takes the blanks at its ends, all of them and nothing else. */
  lemma {:induction false} TrimSpaceIs(s: string) returns (a: string, b: string)
    ensures s == a + TrimSpace(s) + b && AllSpace(a) && AllSpace(b)
    ensures TrimSpace(s) != "" ==> !IsSpace(TrimSpace(s)[0]) && !IsSpace(TrimSpace(s)[|TrimSpace(s)| - 1])
  {
    a, b := "", "";
    if s == "" {
    } else if IsSpace(s[0]) {
      a, b := TrimSpaceIs(s[1..]);
      a := [s[0]] + a;
    } else if IsSpace(s[|s| - 1]) {
      a, b := TrimSpaceIs(s[..|s| - 1]);
      b := b + [s[|s| - 1]];
    }
  }
}
