/** The live click stream as text: what the server writes, how the dashboard cuts and reads it,
    and what a conforming event-stream reader (section 9.2 of the WHATWG HTML Standard) reads. */
module Sse {
  import opened Models
  import Strings

  const NL := "\n"

  // ---------- the server ----------

  datatype Frame = Connected | Heartbeat | Click(data: string)

  function Body(f: Frame): string {
    match f
    case Connected => ": connected"
    case Heartbeat => ": heartbeat"
    case Click(data) => "event: " + "click" + NL + ("data: " + data)
  }

  function Wire(frames: seq<Frame>): string {
    if frames == [] then "" else Body(frames[0]) + (NL + NL) + Wire(frames[1..])
  }

  /** What the handler's select wakes up for; `None` is an event that cannot be marshalled. */
  datatype Wake = Beat | Event(json: Option<string>)

  function FramesOf(wakes: seq<Wake>): seq<Frame> {
    if wakes == [] then []
    else
      var before, w := FramesOf(wakes[..|wakes| - 1]), wakes[|wakes| - 1];
      if w.Beat? then before + [Heartbeat]
      else if w.json.Some? then before + [Click(w.json.value)]
      else before
  }

  /** The handler's loop, until the client disconnects or the subscription closes. */
  method ServeHTTP(wakes: seq<Wake>) returns (text: string)
    ensures text == Wire([Connected] + FramesOf(wakes))
  {
    text := ": connected" + (NL + NL);
    assert [Connected] + [] == [Connected];
    WireSnoc([], Connected);
    for k := 0 to |wakes|
      invariant text == Wire([Connected] + FramesOf(wakes[..k]))
    {
      assert wakes[..k + 1][..k] == wakes[..k];
      var sofar := [Connected] + FramesOf(wakes[..k]);
      match wakes[k]
      case Beat =>
        WireSnoc(sofar, Heartbeat);
        Glue([Connected], FramesOf(wakes[..k]), [Heartbeat]);
        text := text + (": heartbeat" + (NL + NL));
      case Event(None) =>
      case Event(Some(json)) =>
        WireSnoc(sofar, Click(json));
        Glue([Connected], FramesOf(wakes[..k]), [Click(json)]);
        text := text + (("event: " + "click" + NL + ("data: " + json)) + (NL + NL));
    }
    assert wakes[..|wakes|] == wakes;
  }

  lemma {:induction false} WireSnoc(frames: seq<Frame>, f: Frame)
    ensures Wire(frames + [f]) == Wire(frames) + (Body(f) + (NL + NL))
  {
    if frames == [] {
      assert [f][1..] == [] && [] + [f] == [f];
      assert Wire([f]) == Body(f) + (NL + NL) + Wire([f][1..]);
    } else {
      WireSnoc(frames[1..], f);
      assert (frames + [f])[1..] == frames[1..] + [f];
      Glue(Body(frames[0]) + (NL + NL), Wire(frames[1..]), Body(f) + (NL + NL));
    }
  }

  /** Marshalled JSON is never empty and has no raw line break. */
  ghost predicate OneLine(s: string) {
    forall i :: 0 <= i < |s| ==> s[i] != '\n' && s[i] != '\r'
  }

  ghost predicate Json(frames: seq<Frame>) {
    forall i :: 0 <= i < |frames| && frames[i].Click? ==> frames[i].data != "" && OneLine(frames[i].data)
  }

  function Clicks(frames: seq<Frame>): seq<string> {
    if frames == [] then []
    else (if frames[0].Click? then [frames[0].data] else []) + Clicks(frames[1..])
  }

  // ---------- the client ----------

  /** `buf.indexOf('\n\n')`. */
  function BlankLine(s: string): (i: Option<nat>)
    ensures i.Some? ==> i.value + 2 <= |s|
  {
    if |s| < 2 then None
    else if s[0] == '\n' && s[1] == '\n' then Some(0)
    else match BlankLine(s[1..]) case None => None case Some(i) => Some(i + 1)
  }

  /** The raw events a buffer holds, and the text left over. */
  function Drain(buf: string): (seq<string>, string)
    decreases |buf|
  {
    match BlankLine(buf)
    case None => ([], buf)
    case Some(i) =>
      var (raws, rest) := Drain(buf[i + 2..]);
      ([buf[..i]] + raws, rest)
  }

  /** `raw.split('\n')`. */
  function Lines(s: string): (ls: seq<string>)
    ensures ls != []
  {
    if s == "" then [""]
    else
      var ls := Lines(s[1..]);
      if s[0] == '\n' then [""] + ls else [[s[0]] + ls[0]] + ls[1..]
  }

  predicate StartsWith(s: string, prefix: string) {
    prefix <= s
  }

  /** String.prototype.trim. */
  function JsSpace(): char -> bool {
    (c: char) => c != '\U{0085}' && (Strings.IsSpace(c) || c == '\U{FEFF}')
  }

  predicate IsEvent(line: string) {
    !StartsWith(line, ":") && StartsWith(line, "event: ")
  }

  predicate IsData(line: string) {
    !StartsWith(line, ":") && !StartsWith(line, "event: ") && StartsWith(line, "data: ")
  }

  /** The last event name given. */
  function EventOf(lines: seq<string>): string {
    if lines == [] then "message"
    else
      var line := lines[|lines| - 1];
      if IsEvent(line) then Strings.Trim(line[7..], JsSpace()) else EventOf(lines[..|lines| - 1])
  }

  /** The data lines joined. */
  function DataOf(lines: seq<string>): string {
    if lines == [] then ""
    else
      var line := lines[|lines| - 1];
      DataOf(lines[..|lines| - 1]) + if IsData(line) then line[6..] else ""
  }

  /** The click that a raw event reports, if it is one. */
  function Report(raw: string): seq<string> {
    var lines := Lines(raw);
    if EventOf(lines) != "click" || DataOf(lines) == "" then [] else [DataOf(lines)]
  }

  function FlatMap(f: string -> seq<string>, s: seq<string>): seq<string> {
    if s == [] then [] else FlatMap(f, s[..|s| - 1]) + f(s[|s| - 1])
  }

  function Reports(raws: seq<string>): seq<string> {
    FlatMap(Report, raws)
  }

  lemma Glue<T>(x: seq<T>, y: seq<T>, z: seq<T>)
    ensures x + (y + z) == x + y + z
  {
  }

  lemma FlatMapSnoc(f: string -> seq<string>, s: seq<string>, x: string)
    ensures FlatMap(f, s + [x]) == FlatMap(f, s) + f(x)
  {
    assert (s + [x])[..|s|] == s;
  }

  lemma {:induction false} FlatMapAppend(f: string -> seq<string>, a: seq<string>, b: seq<string>)
    ensures FlatMap(f, a + b) == FlatMap(f, a) + FlatMap(f, b)
  {
    if b == [] {
      assert a + b == a;
    } else {
      var init, last := b[..|b| - 1], b[|b| - 1];
      FlatMapAppend(f, a, init);
      FlatMapSnoc(f, a + init, last);
      assert a + b == a + init + [last];
      Glue(FlatMap(f, a), FlatMap(f, init), f(last));
    }
  }

  lemma FlatMapOne(f: string -> seq<string>, x: string)
    ensures FlatMap(f, [x]) == f(x)
  {
    assert [x][..0] == [];
  }

  class LiveClient {
    var buf: string
    var clicks: seq<string>

    constructor ()
      ensures buf == "" && clicks == []
    {
      buf, clicks := "", [];
    }

    method HandleSSEEvent(raw: string)
      modifies this`clicks
      ensures clicks == old(clicks) + Report(raw)
    {
      var lines := Lines(raw);
      var event, data := "message", "";
      for k := 0 to |lines|
        invariant event == EventOf(lines[..k]) && data == DataOf(lines[..k])
      {
        var line := lines[k];
        assert lines[..k + 1][..k] == lines[..k];
        if StartsWith(line, ":") {
          continue;
        }
        if StartsWith(line, "event: ") {
          event := Strings.Trim(line[7..], JsSpace());
        } else if StartsWith(line, "data: ") {
          data := data + line[6..];
        }
      }
      assert lines[..|lines|] == lines;
      if event != "click" || data == "" {
        return;
      }
      clicks := clicks + [data];
    }

    /** One chunk off the network: handle every event that is now complete. */
    method Receive(chunk: string)
      modifies this
      ensures var (raws, rest) := Drain(old(buf) + chunk);
        buf == rest && clicks == old(clicks) + Reports(raws)
    {
      hide Report, BlankLine;
      buf := buf + chunk;
      ghost var all, raws := buf, [];
      assert raws + Drain(buf).0 == Drain(buf).0;
      var idx := BlankLine(buf);
      while idx.Some?
        invariant idx == BlankLine(buf)
        invariant Drain(all) == (raws + Drain(buf).0, Drain(buf).1)
        invariant clicks == old(clicks) + Reports(raws)
        decreases |buf|
      {
        var raw := buf[..idx.value];
        OneHandled(raws, buf, idx.value);
        buf := buf[idx.value + 2..];
        HandleSSEEvent(raw);
        raws := raws + [raw];
        idx := BlankLine(buf);
      }
      assert raws + [] == raws;
    }
  }

  lemma OneHandled(raws: seq<string>, buf: string, i: nat)
    requires BlankLine(buf) == Some(i)
    ensures raws + Drain(buf).0 == raws + [buf[..i]] + Drain(buf[i + 2..]).0
    ensures Drain(buf).1 == Drain(buf[i + 2..]).1
    ensures Reports(raws + [buf[..i]]) == Reports(raws) + Report(buf[..i])
  {
    DrainStep(buf, i);
    Glue(raws, [buf[..i]], Drain(buf[i + 2..]).0);
    FlatMapSnoc(Report, raws, buf[..i]);
  }

  function Concat(chunks: seq<string>): string {
    if chunks == [] then "" else Concat(chunks[..|chunks| - 1]) + chunks[|chunks| - 1]
  }

  /** The whole read loop, over a stream that arrives in any chunks. */
  method ReadAll(chunks: seq<string>) returns (client: LiveClient)
    ensures var (raws, rest) := Drain(Concat(chunks));
      client.buf == rest && client.clicks == Reports(raws)
  {
    client := new LiveClient();
    for k := 0 to |chunks|
      invariant fresh(client)
      invariant client.buf == Drain(Concat(chunks[..k])).1
      invariant client.clicks == Reports(Drain(Concat(chunks[..k])).0)
    {
      var before := Concat(chunks[..k]);
      assert chunks[..k + 1][..k] == chunks[..k];
      ChunksDoNotMatter(before, chunks[k]);
      FlatMapAppend(Report, Drain(before).0, Drain(Drain(before).1 + chunks[k]).0);
      client.Receive(chunks[k]);
    }
    assert chunks[..|chunks|] == chunks;
  }

  // ---------- chunking ----------

  lemma {:induction false} BlankLineKept(a: string, b: string)
    requires BlankLine(a).Some?
    ensures BlankLine(a + b) == BlankLine(a)
  {
    if !(a[0] == '\n' && a[1] == '\n') {
      BlankLineKept(a[1..], b);
      assert (a + b)[1..] == a[1..] + b;
    }
  }

  lemma DrainStep(s: string, i: nat)
    requires BlankLine(s) == Some(i)
    ensures Drain(s) == ([s[..i]] + Drain(s[i + 2..]).0, Drain(s[i + 2..]).1)
  {
  }

  ghost predicate Cut(a: string, b: string) {
    && Drain(a + b).0 == Drain(a).0 + Drain(Drain(a).1 + b).0
    && Drain(a + b).1 == Drain(Drain(a).1 + b).1
  }

  lemma SliceOfSum(a: string, b: string, i: nat)
    requires i <= |a|
    ensures (a + b)[..i] == a[..i] && (a + b)[i..] == a[i..] + b
  {
  }

  lemma SumDrains(a: string, b: string, i: nat)
    requires BlankLine(a) == Some(i)
    ensures Drain(a + b) == ([a[..i]] + Drain(a[i + 2..] + b).0, Drain(a[i + 2..] + b).1)
  {
    BlankLineKept(a, b);
    DrainStep(a + b, i);
    SliceOfSum(a, b, i);
    SliceOfSum(a, b, i + 2);
  }

  lemma CutLater(a: string, b: string, i: nat)
    requires BlankLine(a) == Some(i) && Cut(a[i + 2..], b)
    ensures Cut(a, b)
  {
    var later := Drain(a[i + 2..]);
    DrainStep(a, i);
    SumDrains(a, b, i);
    Glue([a[..i]], later.0, Drain(later.1 + b).0);
  }

  /** For any text cut in two anywhere, also inside a separator: what the first part completes,
      then what the rest completes, is what the whole completes. */
  lemma {:induction false} ChunksDoNotMatter(a: string, b: string)
    ensures Drain(a + b).0 == Drain(a).0 + Drain(Drain(a).1 + b).0
    ensures Drain(a + b).1 == Drain(Drain(a).1 + b).1
    decreases |a|
  {
    match BlankLine(a)
    case None =>
      assert Drain(a) == ([], a);
      assert [] + Drain(a + b).0 == Drain(a + b).0;
    case Some(i) =>
      ChunksDoNotMatter(a[i + 2..], b);
      CutLater(a, b, i);
  }

  // ---------- what the client reads off the wire ----------

  lemma {:induction false} NoBlankLine(line: string, rest: string)
    requires OneLine(line) && line != ""
    ensures BlankLine(line + (NL + rest)) == match BlankLine(NL + rest) case None => None case Some(i) => Some(|line| + i)
  {
    var s := line + (NL + rest);
    assert s[1..] == line[1..] + (NL + rest);
    if |line| > 1 {
      NoBlankLine(line[1..], rest);
    } else {
      assert s[1..] == NL + rest;
    }
  }

  /** One line, or two, up to the blank line after it. */
  lemma OneLineEnds(line: string, rest: string)
    requires OneLine(line) && line != ""
    ensures BlankLine(line + (NL + NL) + rest) == Some(|line|)
  {
    NoBlankLine(line, NL + rest);
    assert line + (NL + NL) + rest == line + (NL + (NL + rest));
  }

  lemma TwoLinesEnd(head: string, line: string, rest: string)
    requires OneLine(head) && head != "" && OneLine(line) && line != ""
    ensures BlankLine((head + NL + line) + (NL + NL) + rest) == Some(|head + NL + line|)
  {
    var tail := line + (NL + NL) + rest;
    OneLineEnds(line, rest);
    NoBlankLine(head, tail);
    assert (NL + tail)[1..] == tail;
    assert (head + NL + line) + (NL + NL) + rest == head + (NL + tail);
  }

  lemma BodyEnds(f: Frame, rest: string)
    requires Json([f])
    ensures BlankLine(Body(f) + (NL + NL) + rest) == Some(|Body(f)|)
  {
    assert [f][0] == f;
    if f.Click? {
      TwoLinesEnd("event: " + "click", "data: " + f.data, rest);
    } else {
      OneLineEnds(Body(f), rest);
    }
  }

  lemma {:induction false} LinesOfLine(line: string)
    requires OneLine(line)
    ensures Lines(line) == [line]
  {
    if line != "" {
      LinesOfLine(line[1..]);
      assert [line[0]] + line[1..] == line;
    }
  }

  lemma {:induction false} LinesSplit(line: string, rest: string)
    requires OneLine(line)
    ensures Lines(line + (NL + rest)) == [line] + Lines(rest)
  {
    var s := line + (NL + rest);
    if line == "" {
      assert s[1..] == rest;
    } else {
      assert s[1..] == line[1..] + (NL + rest);
      LinesSplit(line[1..], rest);
      assert [line[0]] + line[1..] == line;
      assert ([line[1..]] + Lines(rest))[1..] == Lines(rest);
    }
  }

  lemma PrefixOf(prefix: string, x: string)
    ensures StartsWith(prefix + x, prefix) && (prefix + x)[|prefix|..] == x
    ensures forall p :: p != "" && prefix != "" && p[0] != prefix[0] ==> !StartsWith(prefix + x, p)
  {
  }

  lemma EventLine(name: string)
    ensures IsEvent("event: " + name) && !IsData("event: " + name) && ("event: " + name)[7..] == name
  {
    PrefixOf("event: ", name);
  }

  lemma DataLine(data: string)
    ensures IsData("data: " + data) && !IsEvent("data: " + data) && ("data: " + data)[6..] == data
  {
    PrefixOf("data: ", data);
  }

  lemma TrimOfClick()
    ensures Strings.Trim("click", JsSpace()) == "click"
  {
  }

  lemma TwoLinesSay(head: string, line: string)
    requires IsEvent(head) && !IsData(head) && IsData(line) && !IsEvent(line)
    ensures EventOf([head, line]) == Strings.Trim(head[7..], JsSpace())
    ensures DataOf([head, line]) == line[6..]
  {
    var both, one := [head, line], [head];
    var none: seq<string> := [];
    assert both[..1] == one && one[..0] == none;
    assert DataOf(one) == DataOf(none) + "";
    assert DataOf(one) + line[6..] == line[6..];
  }

  lemma ClickReports(data: string)
    requires data != "" && OneLine(data)
    ensures Report(Body(Click(data))) == [data]
  {
    var head, line := "event: " + "click", "data: " + data;
    LinesSplit(head, line);
    LinesOfLine(line);
    assert head + NL + line == head + (NL + line);
    EventLine("click");
    DataLine(data);
    TwoLinesSay(head, line);
    TrimOfClick();
    assert [head] + [line] == [head, line];
  }

  lemma CommentReports(raw: string)
    requires OneLine(raw) && StartsWith(raw, ":")
    ensures Report(raw) == []
  {
    LinesOfLine(raw);
    var none: seq<string> := [raw][..0];
    assert none == [];
    assert EventOf([raw]) == EventOf(none) && DataOf([raw]) == DataOf(none) + "";
  }

  lemma BodyReports(f: Frame)
    requires Json([f])
    ensures Report(Body(f)) == Clicks([f])
  {
    assert [f][0] == f;
    if f.Click? {
      ClickReports(f.data);
    } else {
      CommentReports(Body(f));
    }
    assert Clicks([f][1..]) == [];
  }

  lemma FirstFrame(f: Frame, rest: string)
    requires Json([f])
    ensures var text := Body(f) + (NL + NL) + rest;
      Drain(text) == ([Body(f)] + Drain(rest).0, Drain(rest).1)
  {
    var text := Body(f) + (NL + NL) + rest;
    BodyEnds(f, rest);
    DrainStep(text, |Body(f)|);
    assert text[|Body(f)| + 2..] == rest && text[..|Body(f)|] == Body(f);
  }

  lemma ClicksStep(frames: seq<Frame>)
    requires frames != []
    ensures Clicks(frames) == Clicks([frames[0]]) + Clicks(frames[1..])
  {
    var one := [frames[0]];
    assert one[1..] == [];
    assert Clicks(one) == if frames[0].Click? then [frames[0].data] else [];
  }

  lemma {:induction false} WireDrains(frames: seq<Frame>)
    requires Json(frames)
    ensures Drain(Wire(frames)).1 == ""
    ensures Reports(Drain(Wire(frames)).0) == Clicks(frames)
  {
    if frames != [] {
      WireDrains(frames[1..]);
      assert [frames[0]][0] == frames[0];
      FirstFrame(frames[0], Wire(frames[1..]));
      BodyReports(frames[0]);
      ClicksStep(frames);
      FlatMapAppend(Report, [Body(frames[0])], Drain(Wire(frames[1..])).0);
      FlatMapOne(Report, Body(frames[0]));
    }
  }

  /** However the wire is cut, the client reports exactly the click frames, in order, with their
      data intact; comments are ignored and nothing is left in the buffer. */
  method ReadWire(frames: seq<Frame>, chunks: seq<string>) returns (client: LiveClient)
    requires Json(frames) && Concat(chunks) == Wire(frames)
    ensures client.clicks == Clicks(frames) && client.buf == ""
  {
    WireDrains(frames);
    client := ReadAll(chunks);
  }

  /** A connection that breaks anywhere has reported a prefix of the clicks. */
  lemma BrokenStream(frames: seq<Frame>, got: string)
    requires Json(frames) && got <= Wire(frames)
    ensures Reports(Drain(got).0) <= Clicks(frames)
  {
    WireDrains(frames);
    var missing := Wire(frames)[|got|..];
    assert Wire(frames) == got + missing;
    ChunksDoNotMatter(got, missing);
    FlatMapAppend(Report, Drain(got).0, Drain(Drain(got).1 + missing).0);
  }

  // ---------- the standard's reader ----------

  /** An event-stream reader between two characters: the line so far, and the buffers. */
  datatype Reader = Reader(line: string, afterCR: bool, event: string, data: string, out: seq<(string, string)>)

  const READER := Reader("", false, "", "", [])

  function Colon(line: string): (i: nat)
    ensures i <= |line|
    ensures (forall k :: 0 <= k < i ==> line[k] != ':') && (i < |line| ==> line[i] == ':')
  {
    if line == "" || line[0] == ':' then 0 else 1 + Colon(line[1..])
  }

  function Put(r: Reader, field: string, value: string): Reader {
    if field == "event" then r.(event := value)
    else if field == "data" then r.(data := r.data + value + NL)
    else r
  }

  function EndOfLine(r: Reader): Reader {
    var line, next := r.line, r.(line := "");
    if line == "" then
      if r.data == "" then next.(event := "")
      else next.(out := r.out + [(if r.event == "" then "message" else r.event, r.data[..|r.data| - 1])],
                 event := "", data := "")
    else
      var i := Colon(line);
      var after := if i < |line| then line[i + 1..] else "";
      Put(next, line[..i], if StartsWith(after, " ") then after[1..] else after)
  }

  function ReadChar(r: Reader, c: char): Reader {
    if c == '\n' && r.afterCR then r.(afterCR := false)
    else if c == '\n' || c == '\r' then EndOfLine(r).(afterCR := c == '\r')
    else r.(line := r.line + [c], afterCR := false)
  }

  function ReadText(r: Reader, text: string): Reader
    decreases |text|
  {
    if text == "" then r else ReadText(ReadChar(r, text[0]), text[1..])
  }

  lemma {:induction false} ReadLine(r: Reader, line: string, rest: string)
    requires OneLine(line) && !r.afterCR
    ensures ReadText(r, line + (NL + rest)) == ReadText(EndOfLine(r.(line := r.line + line)).(afterCR := false), rest)
    decreases |line|
  {
    var s := line + (NL + rest);
    if line == "" {
      assert s[1..] == rest;
      assert r.line + line == r.line;
    } else {
      assert s[1..] == line[1..] + (NL + rest);
      ReadLine(ReadChar(r, line[0]), line[1..], rest);
      assert r.line + [line[0]] + line[1..] == r.line + line;
    }
  }

  /** Between two frames. */
  ghost predicate AtRest(r: Reader) {
    r.line == "" && !r.afterCR && r.event == "" && r.data == ""
  }

  lemma CommentRead(r: Reader, line: string, rest: string)
    requires AtRest(r) && OneLine(line) && StartsWith(line, ":")
    ensures ReadText(r, line + (NL + (NL + rest))) == ReadText(r, rest)
  {
    ReadLine(r, line, NL + rest);
    ReadLine(r, "", rest);
    assert "" + (NL + rest) == NL + rest;
    assert "" + line == line;
  }

  lemma FieldLine(r: Reader, name: string, value: string)
    requires r.line == "" && name != "" && forall k :: 0 <= k < |name| ==> name[k] != ':'
    ensures EndOfLine(r.(line := name + ": " + value)) == Put(r, name, value)
  {
    var line := name + ": " + value;
    assert line[|name|] == ':';
    assert Colon(line) == |name|;
    assert line[..|name|] == name;
    var after := line[|name| + 1..];
    assert after == " " + value && after[1..] == value;
  }

  lemma FieldRead(r: Reader, name: string, value: string, rest: string)
    requires r.line == "" && !r.afterCR && name != "" && OneLine(name) && OneLine(value)
    requires forall k :: 0 <= k < |name| ==> name[k] != ':'
    ensures ReadText(r, name + ": " + value + (NL + rest)) == ReadText(Put(r, name, value), rest)
  {
    var line := name + ": " + value;
    ReadLine(r, line, rest);
    FieldLine(r, name, value);
    assert r.line + line == line;
    assert Put(r, name, value).(afterCR := false) == Put(r, name, value);
  }

  lemma BlankRead(r: Reader, data: string, rest: string)
    requires r.line == "" && !r.afterCR && r.data == data + NL && r.event != ""
    ensures ReadText(r, NL + rest) == ReadText(r.(out := r.out + [(r.event, data)], event := "", data := ""), rest)
  {
    ReadLine(r, "", rest);
    assert "" + (NL + rest) == NL + rest && r.line + "" == r.line;
  }

  lemma ClickRead(r: Reader, data: string, rest: string)
    requires AtRest(r) && OneLine(data)
    ensures ReadText(r, "event" + ": " + "click" + (NL + ("data" + ": " + data + (NL + (NL + rest)))))
      == ReadText(r.(out := r.out + [("click", data)]), rest)
  {
    var named := r.(event := "click");
    FieldRead(r, "event", "click", "data" + ": " + data + (NL + (NL + rest)));
    FieldRead(named, "data", data, NL + rest);
    assert "" + data + NL == data + NL;
    BlankRead(named.(data := data + NL), data, rest);
  }

  lemma FrameRead(r: Reader, f: Frame, rest: string)
    requires AtRest(r) && Json([f])
    ensures ReadText(r, Body(f) + (NL + NL) + rest) == ReadText(r.(out := r.out + Dispatched(Clicks([f]))), rest)
  {
    assert [f][0] == f;
    assert Clicks([f][1..]) == [];
    if f.Click? {
      ClickWire(f.data, rest);
      ClickRead(r, f.data, rest);
      assert Dispatched(Clicks([f])) == [("click", f.data)];
    } else {
      CommentRead(r, Body(f), rest);
      assert Body(f) + (NL + NL) + rest == Body(f) + (NL + (NL + rest));
      assert r.out + Dispatched(Clicks([f])) == r.out;
    }
  }

  lemma {:induction false} StandardReads(frames: seq<Frame>, r: Reader)
    requires Json(frames) && AtRest(r)
    ensures AtRest(ReadText(r, Wire(frames)))
    ensures ReadText(r, Wire(frames)).out == r.out + Dispatched(Clicks(frames))
    decreases |frames|
  {
    if frames != [] {
      var f := frames[0];
      assert [f][0] == frames[0];
      FrameRead(r, f, Wire(frames[1..]));
      ClicksStep(frames);
      DispatchedAppend(Clicks([f]), Clicks(frames[1..]));
      var next := r.(out := r.out + Dispatched(Clicks([f])));
      StandardReads(frames[1..], next);
      Glue(r.out, Dispatched(Clicks([f])), Dispatched(Clicks(frames[1..])));
    }
  }

  /** The client's short cuts (LF only, `data: ` with its space, no other fields) lose nothing
      here: on every wire a conforming reader dispatches the same clicks with the same data. */
  lemma StandardReaderAgrees(frames: seq<Frame>)
    requires Json(frames)
    ensures ReadText(READER, Wire(frames)).out == Dispatched(Reports(Drain(Wire(frames)).0))
  {
    WireDrains(frames);
    StandardReads(frames, READER);
  }

  lemma ClickWire(data: string, rest: string)
    ensures Body(Click(data)) + (NL + NL) + rest
      == "event" + ": " + "click" + (NL + ("data" + ": " + data + (NL + (NL + rest))))
  {
    assert "event" + ": " == "event: " && "data" + ": " == "data: ";
  }

  function Dispatched(clicks: seq<string>): seq<(string, string)> {
    seq(|clicks|, i requires 0 <= i < |clicks| => ("click", clicks[i]))
  }

  lemma DispatchedAppend(a: seq<string>, b: seq<string>)
    ensures Dispatched(a + b) == Dispatched(a) + Dispatched(b)
  {
  }

  // ---------- from the subscription to the dashboard ----------

  /** The clicks that could be marshalled, in the order they came. */
  function Marshalled(wakes: seq<Wake>): seq<string> {
    if wakes == [] then []
    else (if wakes[0].Event? && wakes[0].json.Some? then [wakes[0].json.value] else []) + Marshalled(wakes[1..])
  }

  lemma {:induction false} ClicksSnoc(frames: seq<Frame>, f: Frame)
    ensures Clicks(frames + [f]) == Clicks(frames) + (if f.Click? then [f.data] else [])
  {
    if frames == [] {
      assert [f][1..] == [] && [] + [f] == [f];
    } else {
      ClicksSnoc(frames[1..], f);
      assert (frames + [f])[1..] == frames[1..] + [f];
    }
  }

  lemma {:induction false} MarshalledSnoc(wakes: seq<Wake>, w: Wake)
    ensures Marshalled(wakes + [w]) == Marshalled(wakes) + (if w.Event? && w.json.Some? then [w.json.value] else [])
  {
    if wakes == [] {
      assert [w][1..] == [] && [] + [w] == [w];
    } else {
      MarshalledSnoc(wakes[1..], w);
      assert (wakes + [w])[1..] == wakes[1..] + [w];
    }
  }

  /** The handler writes a click frame for every event that can be marshalled, in order, and a
      heartbeat for every tick; nothing else. */
  lemma {:induction false} FramesAreEvents(wakes: seq<Wake>)
    ensures Clicks([Connected] + FramesOf(wakes)) == Marshalled(wakes)
    ensures |FramesOf(wakes)| <= |wakes|
    ensures (forall i :: 0 <= i < |wakes| ==> wakes[i].Beat? || wakes[i].json.Some?) ==> |FramesOf(wakes)| == |wakes|
  {
    if wakes == [] {
      assert [Connected] + FramesOf(wakes) == [Connected] && [Connected][1..] == [];
    } else {
      var before, w := wakes[..|wakes| - 1], wakes[|wakes| - 1];
      FramesAreEvents(before);
      assert wakes == before + [w];
      MarshalledSnoc(before, w);
      if w.Beat? || w.json.Some? {
        var f := if w.Beat? then Heartbeat else Click(w.json.value);
        ClicksSnoc([Connected] + FramesOf(before), f);
        Glue([Connected], FramesOf(before), [f]);
      }
    }
  }

  /** An event counts as a click by its name alone, and only with data. */
  lemma EventNameDecides(name: string, data: string)
    requires OneLine(name) && OneLine(data)
    ensures Report("event: " + name + NL + ("data: " + data))
      == if Strings.Trim(name, JsSpace()) == "click" && data != "" then [data] else []
  {
    var head, line := "event: " + name, "data: " + data;
    LinesSplit(head, line);
    LinesOfLine(line);
    assert head + NL + line == head + (NL + line);
    EventLine(name);
    DataLine(data);
    TwoLinesSay(head, line);
    assert [head] + [line] == [head, line];
  }

  /** Several data lines are joined as they are, the last event name counts, and comments in
      between do not. */
  lemma LinesCombine(lines: seq<string>, data: string, name: string, comment: string)
    ensures DataOf(lines + ["data: " + data]) == DataOf(lines) + data
    ensures EventOf(lines + ["data: " + data]) == EventOf(lines)
    ensures EventOf(lines + ["event: " + name]) == Strings.Trim(name, JsSpace())
    ensures DataOf(lines + ["event: " + name]) == DataOf(lines)
    ensures DataOf(lines + [":" + comment]) == DataOf(lines) && EventOf(lines + [":" + comment]) == EventOf(lines)
  {
    EventLine(name);
    DataLine(data);
    PrefixOf(":", comment);
    OneMoreLine(lines, "data: " + data);
    OneMoreLine(lines, "event: " + name);
    OneMoreLine(lines, ":" + comment);
  }

  lemma OneMoreLine(lines: seq<string>, line: string)
    ensures DataOf(lines + [line]) == DataOf(lines) + if IsData(line) then line[6..] else ""
    ensures EventOf(lines + [line]) == if IsEvent(line) then Strings.Trim(line[7..], JsSpace()) else EventOf(lines)
  {
    assert (lines + [line])[..|lines|] == lines;
  }
}
