/** The server-sent-events transport: Recv reads lines until an event carries a JSON-RPC message. */
module SseTransport {
  import opened Text

  // ---- lines ----

  /** Where the first newline is, or the length. */
  function Break(s: string): (i: nat)
    ensures i <= |s| && '\n' !in s[..i] && (i < |s| ==> s[i] == '\n')
  {
    if s == "" || s[0] == '\n' then 0 else Break(s[1..]) + 1
  }

  predicate IsSpace(c: char)
  {
    || c == ' ' || '\t' <= c <= '\r' || 0x2000 <= c as int <= 0x200A
    || c as int in {0x85, 0xA0, 0x1680, 0x2028, 0x2029, 0x202F, 0x205F, 0x3000}
  }

  /** `strings.TrimSpace`. */
  function TrimSpace(s: string): string
  {
    if s == "" then s
    else if IsSpace(s[0]) then TrimSpace(s[1..])
    else if IsSpace(s[|s| - 1]) then TrimSpace(s[..|s| - 1])
    else s
  }

  predicate HasPrefix(s: string, p: string)
  {
    |p| <= |s| && s[..|p|] == p
  }

  // ---- the parser ----

  /** The event being assembled. */
  datatype Frame = Frame(eventType: string, data: string)

  const NO_FRAME := Frame("", "")

  /** A non-blank, non-comment line. */
  function Field(f: Frame, line: string): Frame
  {
    if HasPrefix(line, "event:") then f.(eventType := TrimSpace(line[6..]))
    else if HasPrefix(line, "data:") then
      var payload := if |line| > 5 && line[5] == ' ' then line[6..] else line[5..];
      f.(data := if f.data == "" then payload else f.data + "\n" + payload)
    else f
  }

  datatype Received = Got(payload: string, rest: string, url: string) | End(url: string)

  /** What reading `stream` in the middle of frame `f` delivers; an unterminated last line is not read. */
  function Parse(stream: string, f: Frame, url: string): (r: Received)
    ensures r.Got? ==> |r.rest| < |stream|
    decreases |stream|, 0
  {
    var i := Break(stream);
    if i == |stream| then End(url)
    else AfterLine(TrimRight(stream[..i]), stream[i + 1..], f, url)
  }

  function AfterLine(line: string, rest: string, f: Frame, url: string): (r: Received)
    ensures r.Got? ==> |r.rest| <= |rest|
    decreases |rest|, 1
  {
    if line == "" then
      if f.data == "" then Parse(rest, NO_FRAME, url)
      else if f.eventType == "endpoint" then Parse(rest, NO_FRAME, f.data)
      else if f.eventType == "" || f.eventType == "message" then Got(f.data, rest, url)
      else Parse(rest, NO_FRAME, url)
    else if line[0] == ':' then Parse(rest, f, url)
    else Parse(rest, Field(f, line), url)
  }

  class Transport {
    var stream: string
    var closed: bool
    var postURL: string
    var err: string
    /** How the stream ends: "" for EOF, or the text of a read error. */
    const ending: string

    constructor (stream: string, ending: string)
      ensures this.stream == stream && !closed && postURL == "" && err == "" && this.ending == ending
    {
      this.stream, closed, postURL, err, this.ending := stream, false, "", "", ending;
    }

    method Recv() returns (payload: string, ok: bool)
      modifies this
      ensures closed == old(closed)
      ensures closed ==> !ok && stream == old(stream) && postURL == old(postURL) && err == old(err)
      ensures !closed ==> match Parse(old(stream), NO_FRAME, old(postURL))
        case Got(p, rest, url) => ok && payload == p && stream == rest && postURL == url && err == old(err)
        case End(url) => !ok && stream == "" && postURL == url && err == if ending != "" then ending else old(err)
    {
      var eventType, dataBuf := "", "";
      payload, ok := "", false;
      while true
        invariant closed == old(closed) && err == old(err)
        invariant closed ==> stream == old(stream) && postURL == old(postURL)
        invariant !closed ==>
          Parse(stream, Frame(eventType, dataBuf), postURL) == Parse(old(stream), NO_FRAME, old(postURL))
        decreases |stream|
      {
        if closed {
          return;
        }
        var i := Break(stream);
        if i == |stream| {
          if ending != "" {
            err := ending;
          }
          stream := "";
          return;
        }
        var line := TrimRight(stream[..i]);
        ghost var f := Frame(eventType, dataBuf);
        ghost var whole := Parse(stream, f, postURL);
        stream := stream[i + 1..];
        assert whole == AfterLine(line, stream, f, postURL);
        if |line| == 0 {
          if |dataBuf| == 0 {
            eventType := "";
            continue;
          }
          if eventType == "endpoint" {
            postURL := dataBuf;
          } else if eventType == "" || eventType == "message" {
            return dataBuf, true;
          }
          eventType, dataBuf := "", "";
          continue;
        }
        if line[0] == ':' {
          continue;
        }
        if HasPrefix(line, "event:") {
          eventType := TrimSpace(line[6..]);
        } else if HasPrefix(line, "data:") {
          var data := line[5..];
          if |data| > 0 && data[0] == ' ' {
            assert line[5..][1..] == line[6..];
            data := data[1..];
          }
          if |dataBuf| > 0 {
            dataBuf := dataBuf + "\n";
          }
          dataBuf := dataBuf + data;
        }
        assert Frame(eventType, dataBuf) == Field(f, line);
      }
    }
  }
}
