/**
  Server-sent events: the writer that frames an event, and the browser's incremental reader that
  takes the text in whatever chunks the network delivers.

  The reader is proved to be a function of the concatenated text alone, and to give back what the
  writer framed. JSON is opaque text here: `accepts` says which dispatches neither `JSON.parse` nor the
  handler refuses. A refusal ends the reader.
*/
module Sse {
  import opened Wrappers
  import opened Text

  datatype Event = Event(name: string, data: string)

  // ---------------------------------------------------------------- Writer

  function Frame(name: string, data: string): string {
    "event: " + name + "\ndata: " + data + "\n\n"
  }

  function Concat(texts: seq<string>): string {
    if texts == [] then "" else texts[0] + Concat(texts[1..])
  }

  function FrameAll(events: seq<Event>): string {
    Concat(seq(|events|, i requires 0 <= i < |events| => Frame(events[i].name, events[i].data)))
  }

  lemma {:induction false} ConcatLast(texts: seq<string>, last: string)
    ensures Concat(texts + [last]) == Concat(texts) + last
  {
    if texts == [] {
      assert [last][1..] == [] && texts + [last] == [last];
    } else {
      assert (texts + [last])[1..] == texts[1..] + [last];
      ConcatLast(texts[1..], last);
    }
  }

  /** What a writer holds after one more event. */
  lemma FrameAllLast(events: seq<Event>, e: Event)
    ensures FrameAll(events + [e]) == FrameAll(events) + Frame(e.name, e.data)
  {
    var frames := seq(|events|, i requires 0 <= i < |events| => Frame(events[i].name, events[i].data));
    var more := seq(|events + [e]|,
                    i requires 0 <= i < |events + [e]| => Frame((events + [e])[i].name, (events + [e])[i].data));
    assert more == frames + [Frame(e.name, e.data)];
    ConcatLast(frames, Frame(e.name, e.data));
  }

  class ResponseWriter {
    var body: string

    constructor ()
      ensures body == ""
    {
      body := "";
    }

    /** `marshalled` is what the JSON encoder made of the payload. */
    method WriteSSE(event: string, marshalled: Result<string, string>) returns (r: Result<(), string>)
      modifies this
      ensures r.Success? <==> marshalled.Success?
      ensures body == old(body) + if marshalled.Success? then Frame(event, marshalled.value) else ""
      ensures marshalled.Success? ==> body == old(body) + "event: " + event + "\ndata: " + marshalled.value + "\n\n"
    {
      if marshalled.Failure? {
        return Failure(marshalled.error);
      }
      body := body + "event: " + event + "\ndata: " + marshalled.value + "\n\n";
      return Success(());
    }
  }

  // ---------------------------------------------------------------- Reader

  /** The reader between two lines: the event name and data lines collected so far, the events handed to
      the handlers, and whether one was refused. */
  datatype Reader = Reader(event: string, data: seq<string>, log: seq<Event>, failed: bool)

  const START := Reader("message", [], [], false)

  function Join(lines: seq<string>): string {
    if lines == [] then ""
    else if |lines| == 1 then lines[0]
    else Join(lines[..|lines| - 1]) + "\n" + lines[|lines| - 1]
  }

  /** A blank line, or the end of the stream, hands over the collected event if it has data. */
  function Dispatch(accepts: Event -> bool, r: Reader): Reader {
    var event := Event(r.event, Join(r.data));
    if r.data == [] then Reader("message", [], r.log, false)
    else if accepts(event) then Reader("message", [], r.log + [event], false)
    else r.(failed := true)
  }

  function StripReturn(raw: string): string {
    if raw != "" && raw[|raw| - 1] == '\r' then raw[..|raw| - 1] else raw
  }

  function OnLine(accepts: Event -> bool, r: Reader, raw: string): Reader {
    var line := StripReturn(raw);
    if r.failed then r
    else if line == "" then Dispatch(accepts, r)
    else if "event:" <= line then r.(event := Trim(line[|"event:"|..], JsSpace))
    else if "data:" <= line then r.(data := r.data + [Trim(line[|"data:"|..], JsSpace)])
    else r
  }

  /** The position of the first newline, or the length. */
  function Newline(text: string): nat {
    if text == "" || text[0] == '\n' then 0 else 1 + Newline(text[1..])
  }

  lemma {:induction false} NewlineIsFirst(text: string)
    ensures Newline(text) <= |text|
    ensures '\n' !in text[..Newline(text)]
    ensures Newline(text) < |text| ==> text[Newline(text)] == '\n'
  {
    if text != "" && text[0] != '\n' {
      NewlineIsFirst(text[1..]);
      assert text[..Newline(text)] == [text[0]] + text[1..][..Newline(text[1..])];
    }
  }

  lemma {:induction false} NewlineAfter(line: string, rest: string)
    requires '\n' !in line
    ensures Newline(line + "\n" + rest) == |line|
  {
    var text := line + "\n" + rest;
    if line != "" {
      NewlineAfter(line[1..], rest);
      assert text[1..] == line[1..] + "\n" + rest;
      assert text[0] == line[0];
    }
  }

  /** The reader after every complete line of the text, one after the other. */
  function FeedLines(accepts: Event -> bool, r: Reader, text: string): Reader
    decreases |text|
  {
    NewlineIsFirst(text);
    var n := Newline(text);
    if n == |text| then r else FeedLines(accepts, OnLine(accepts, r, text[..n]), text[n + 1..])
  }

  /** Named apart from its recursion so that proofs about whole frames do not unfold it line by line. */
  function Feed(accepts: Event -> bool, r: Reader, text: string): Reader {
    FeedLines(accepts, r, text)
  }

  /** The whole stream, read at once. An unfinished last line is dropped, an unfinished event is not. */
  function ReadAll(accepts: Event -> bool, text: string): Reader {
    var r := Feed(accepts, START, text);
    if !r.failed && r.data != [] then Dispatch(accepts, r) else r
  }

  /** Reading one line ahead of the rest. */
  lemma FeedLine(accepts: Event -> bool, r: Reader, line: string, rest: string)
    requires '\n' !in line
    ensures Feed(accepts, r, line + "\n" + rest) == Feed(accepts, OnLine(accepts, r, line), rest)
  {
    var text := line + "\n" + rest;
    NewlineAfter(line, rest);
    assert text[..|line|] == line && text[|line| + 1..] == rest;
  }

  lemma FeedNothing(accepts: Event -> bool, r: Reader, text: string)
    requires '\n' !in text
    ensures Feed(accepts, r, text) == r
  {
    NewlineIsFirst(text);
  }

  lemma {:induction false} FeedFailed(accepts: Event -> bool, r: Reader, text: string)
    requires r.failed
    ensures Feed(accepts, r, text) == r
    decreases |text|
  {
    NewlineIsFirst(text);
    var n := Newline(text);
    if n < |text| {
      FeedFailed(accepts, r, text[n + 1..]);
    }
  }

  lemma CutAtNewline(buffer: string, idx: nat, rest: string)
    requires idx < |buffer| && buffer[idx] == '\n'
    ensures buffer + rest == buffer[..idx] + "\n" + (buffer[idx + 1..] + rest)
  {
    assert buffer == buffer[..idx] + "\n" + buffer[idx + 1..];
    Associative(buffer[..idx] + "\n", buffer[idx + 1..], rest);
  }

  /** The lines the buffer already completes; `rest` is what later chunks will bring. */
  method Drain(accepts: Event -> bool, r0: Reader, buffer0: string, ghost rest: string)
    returns (r: Reader, buffer: string)
    ensures Feed(accepts, r, buffer + rest) == Feed(accepts, r0, buffer0 + rest)
    ensures !r.failed ==> '\n' !in buffer
  {
    r, buffer := r0, buffer0;
    NewlineIsFirst(buffer);
    var idx := Newline(buffer);
    while idx < |buffer| && !r.failed
      invariant idx == Newline(buffer) <= |buffer|
      invariant Feed(accepts, r, buffer + rest) == Feed(accepts, r0, buffer0 + rest)
      decreases |buffer|
    {
      NewlineIsFirst(buffer);
      var raw, tail := buffer[..idx], buffer[idx + 1..];
      CutAtNewline(buffer, idx, rest);
      FeedLine(accepts, r, raw, tail + rest);
      r := OnLine(accepts, r, raw);
      buffer := tail;
      NewlineIsFirst(buffer);
      idx := Newline(buffer);
    }
    NewlineIsFirst(buffer);
    assert idx == |buffer| ==> buffer[..idx] == buffer;
  }

  /** However the stream is cut, the reader ends as if it had read the whole text at once. */
  method ParseSSE(accepts: Event -> bool, chunks: seq<string>) returns (r: Reader)
    ensures r == ReadAll(accepts, Concat(chunks))
  {
    r := START;
    var buffer := "";
    ghost var text := Concat(chunks);
    assert chunks[0..] == chunks && "" + text == text;
    for i := 0 to |chunks|
      invariant !r.failed && '\n' !in buffer
      invariant Feed(accepts, r, buffer + Concat(chunks[i..])) == Feed(accepts, START, text)
    {
      ghost var rest := Concat(chunks[i + 1..]);
      assert chunks[i..][1..] == chunks[i + 1..];
      assert buffer + (chunks[i] + rest) == (buffer + chunks[i]) + rest;
      r, buffer := Drain(accepts, r, buffer + chunks[i], rest);
      if r.failed {
        FeedFailed(accepts, r, buffer + rest);
        return;
      }
    }
    assert buffer + Concat(chunks[|chunks|..]) == buffer;
    FeedNothing(accepts, r, buffer);
    if r.data != [] {
      r := Dispatch(accepts, r);
    }
  }

  // ---------------------------------------------------------------- Round trip

  /** What the framing can carry: text on one line with no white space at either end. Names and JSON
      objects are of this kind. */
  predicate Carried(text: string) {
    Trimmed(text, JsSpace) && '\n' !in text
  }

  lemma StripNothing(prefix: string, text: string)
    requires Carried(text) && prefix != "" && prefix[|prefix| - 1] == ' '
    ensures StripReturn(prefix + text) == prefix + text && Trim(" " + text, JsSpace) == text
  {
    var padded := " " + text;
    assert padded[1..] == text && TrimLeft(padded, JsSpace) == TrimLeft(text, JsSpace);
    if text != "" {
      assert (prefix + text)[|prefix + text| - 1] == text[|text| - 1];
      assert !JsSpace(text[0]) && !JsSpace(text[|text| - 1]);
    } else {
      assert prefix + text == prefix;
    }
  }

  lemma FieldLines(accepts: Event -> bool, r: Reader, e: Event)
    requires Carried(e.name) && Carried(e.data) && !r.failed
    ensures OnLine(accepts, r, "event: " + e.name) == r.(event := e.name)
    ensures OnLine(accepts, r, "data: " + e.data) == r.(data := r.data + [e.data])
  {
    StripNothing("event: ", e.name);
    StripNothing("data: ", e.data);
    assert ("event: " + e.name)[|"event:"|..] == " " + e.name;
    assert ("data: " + e.data)[|"data:"|..] == " " + e.data;
    assert ("data: " + e.data)[0] == 'd';
  }

  lemma FrameIsThreeLines(e: Event, rest: string)
    ensures Frame(e.name, e.data) + rest == "event: " + e.name + "\n" + ("data: " + e.data + "\n" + ("" + "\n" + rest))
  {
  }

  /** One framed event is handed over and leaves the reader ready for the next. */
  lemma FeedFrame(accepts: Event -> bool, log: seq<Event>, e: Event, rest: string)
    requires Carried(e.name) && Carried(e.data) && accepts(e)
    ensures Feed(accepts, Reader("message", [], log, false), Frame(e.name, e.data) + rest)
         == Feed(accepts, Reader("message", [], log + [e], false), rest)
  {
    var r0 := Reader("message", [], log, false);
    FrameIsThreeLines(e, rest);
    FieldLines(accepts, r0, e);
    FeedLine(accepts, r0, "event: " + e.name, "data: " + e.data + "\n" + ("" + "\n" + rest));
    FeedData(accepts, r0.(event := e.name), e, rest);
  }

  lemma FeedData(accepts: Event -> bool, r: Reader, e: Event, rest: string)
    requires Carried(e.name) && Carried(e.data) && accepts(e) && !r.failed && r.event == e.name && r.data == []
    ensures Feed(accepts, r, "data: " + e.data + "\n" + ("" + "\n" + rest))
         == Feed(accepts, Reader("message", [], r.log + [e], false), rest)
  {
    FieldLines(accepts, r, e);
    FeedLine(accepts, r, "data: " + e.data, "" + "\n" + rest);
    assert r.data + [e.data] == [e.data];
    FeedLine(accepts, r.(data := [e.data]), "", rest);
  }

  /** Whatever was handed over before and whatever follows, reading `text` hands over e. */
  ghost predicate Delivers(read: (seq<Event>, string) -> Reader, text: string, e: Event) {
    forall log, rest :: read(log, text + rest) == read(log + [e], rest)
  }

  lemma {:induction false} DeliversAll(read: (seq<Event>, string) -> Reader, texts: seq<string>, events: seq<Event>,
                                       log: seq<Event>, rest: string)
    requires |texts| == |events| && forall i :: 0 <= i < |events| ==> Delivers(read, texts[i], events[i])
    ensures read(log, Concat(texts) + rest) == read(log + events, rest)
  {
    if events == [] {
      assert Concat(texts) + rest == rest && log + events == log;
    } else {
      var later := Concat(texts[1..]);
      Associative(texts[0], later, rest);
      assert Delivers(read, texts[0], events[0]);
      assert read(log, texts[0] + (later + rest)) == read(log + [events[0]], later + rest);
      DeliversAll(read, texts[1..], events[1..], log + [events[0]], rest);
      assert log + [events[0]] + events[1..] == log + events;
    }
  }

  /** The reader ready for an event, with this much handed over. */
  ghost function ReadAfter(accepts: Event -> bool): (seq<Event>, string) -> Reader {
    (log: seq<Event>, text: string) => Feed(accepts, Reader("message", [], log, false), text)
  }

  lemma Associative(a: string, b: string, c: string)
    ensures a + b + c == a + (b + c)
  {
  }

  lemma FeedFrames(accepts: Event -> bool, events: seq<Event>, rest: string)
    requires forall e :: e in events ==> Carried(e.name) && Carried(e.data) && accepts(e)
    ensures Feed(accepts, START, FrameAll(events) + rest) == Feed(accepts, Reader("message", [], events, false), rest)
  {
    var frames := seq(|events|, i requires 0 <= i < |events| => Frame(events[i].name, events[i].data));
    forall i | 0 <= i < |events| ensures Delivers(ReadAfter(accepts), frames[i], events[i]) {
      assert events[i] in events;
      FrameDelivers(accepts, events[i]);
    }
    DeliversAll(ReadAfter(accepts), frames, events, [], rest);
    assert [] + events == events;
  }

  lemma FrameDelivers(accepts: Event -> bool, e: Event)
    requires Carried(e.name) && Carried(e.data) && accepts(e)
    ensures Delivers(ReadAfter(accepts), Frame(e.name, e.data), e)
  {
    forall log, rest
      ensures ReadAfter(accepts)(log, Frame(e.name, e.data) + rest) == ReadAfter(accepts)(log + [e], rest)
    {
      FeedFrame(accepts, log, e, rest);
    }
  }

  /** Round trip: whatever is framed, and however the text is cut into chunks, the reader hands over
      exactly those events in order. */
  lemma RoundTrip(accepts: Event -> bool, events: seq<Event>, chunks: seq<string>)
    requires forall e :: e in events ==> Carried(e.name) && Carried(e.data) && accepts(e)
    requires Concat(chunks) == FrameAll(events)
    ensures ReadAll(accepts, Concat(chunks)) == Reader("message", [], events, false)
  {
    FeedFrames(accepts, events, "");
    assert FrameAll(events) + "" == FrameAll(events);
    FeedNothing(accepts, Reader("message", [], events, false), "");
  }

  // ---------------------------------------------------------------- Streams that are cut off

  /** The length of a frame up to and including the newline of its first field. */
  function NameEnd(e: Event): nat {
    |"event: "| + |e.name| + 1
  }

  lemma FrameLength(e: Event)
    ensures |Frame(e.name, e.data)| == NameEnd(e) + |"data: "| + |e.data| + 2
  {
  }

  lemma CutInName(e: Event, r: nat)
    requires r < NameEnd(e) && '\n' !in e.name
    ensures r <= |Frame(e.name, e.data)| && '\n' !in Frame(e.name, e.data)[..r]
  {
    FrameLength(e);
    var line := "event: " + e.name;
    assert '\n' !in line;
    assert Frame(e.name, e.data) == line + ("\ndata: " + e.data + "\n\n");
    assert Frame(e.name, e.data)[..r] == line[..r];
  }

  lemma CutInData(e: Event, r: nat)
    requires NameEnd(e) <= r < |Frame(e.name, e.data)| - 1
    ensures r - NameEnd(e) <= |"data: " + e.data|
    ensures Frame(e.name, e.data)[..r] == "event: " + e.name + "\n" + ("data: " + e.data)[..r - NameEnd(e)]
  {
    FrameLength(e);
    var first := "event: " + e.name + "\n";
    assert Frame(e.name, e.data) == first + (("data: " + e.data) + "\n\n");
    assert |first| == NameEnd(e);
  }

  lemma CutBeforeBlank(e: Event)
    ensures Frame(e.name, e.data)[..|Frame(e.name, e.data)| - 1]
            == "event: " + e.name + "\n" + ("data: " + e.data + "\n" + "")
  {
    FrameLength(e);
    assert Frame(e.name, e.data) == ("event: " + e.name + "\n" + ("data: " + e.data + "\n" + "")) + "\n";
  }

  // A frame that is cut off has been read as far as its complete lines go.

  lemma FeedNoField(accepts: Event -> bool, r: Reader, e: Event, n: nat)
    requires '\n' !in e.name && n < NameEnd(e)
    ensures n <= |Frame(e.name, e.data)| && Feed(accepts, r, Frame(e.name, e.data)[..n]) == r
  {
    CutInName(e, n);
    FeedNothing(accepts, r, Frame(e.name, e.data)[..n]);
  }

  lemma FeedNameOnly(accepts: Event -> bool, r: Reader, e: Event, n: nat)
    requires Carried(e.name) && Carried(e.data) && !r.failed && NameEnd(e) <= n < |Frame(e.name, e.data)| - 1
    ensures Feed(accepts, r, Frame(e.name, e.data)[..n]) == r.(event := e.name)
  {
    CutInData(e, n);
    FieldLines(accepts, r, e);
    NoNewlineBefore("data: " + e.data, n - NameEnd(e));
    FeedLine(accepts, r, "event: " + e.name, ("data: " + e.data)[..n - NameEnd(e)]);
    FeedNothing(accepts, r.(event := e.name), ("data: " + e.data)[..n - NameEnd(e)]);
  }

  lemma FeedBothFields(accepts: Event -> bool, r: Reader, e: Event)
    requires Carried(e.name) && Carried(e.data) && !r.failed && r.data == []
    ensures |Frame(e.name, e.data)| > 0
    ensures Feed(accepts, r, Frame(e.name, e.data)[..|Frame(e.name, e.data)| - 1])
            == r.(event := e.name, data := [e.data])
  {
    FrameLength(e);
    CutBeforeBlank(e);
    FieldLines(accepts, r, e);
    FeedLine(accepts, r, "event: " + e.name, "data: " + e.data + "\n" + "");
    FeedDataLine(accepts, r.(event := e.name), e);
  }

  lemma NoNewlineBefore(line: string, n: nat)
    requires n <= |line| && '\n' !in line
    ensures '\n' !in line[..n]
  {
  }

  lemma FeedDataLine(accepts: Event -> bool, r: Reader, e: Event)
    requires Carried(e.name) && Carried(e.data) && !r.failed && r.data == []
    ensures Feed(accepts, r, "data: " + e.data + "\n" + "") == r.(data := [e.data])
  {
    FieldLines(accepts, r, e);
    FeedLine(accepts, r, "data: " + e.data, "");
    assert r.data + [e.data] == [e.data];
    FeedNothing(accepts, r.(data := [e.data]), "");
  }

  /** How many frames are complete within the first k characters. */
  function WholeOf(events: seq<Event>, k: nat): nat {
    if events == [] then 0 else if |FrameAll(events)| <= k then |events| else WholeOf(events[..|events| - 1], k)
  }

  /** Named apart from its recursion for the same reason. */
  function Whole(events: seq<Event>, k: nat): nat {
    WholeOf(events, k)
  }

  lemma {:induction false} WholeFrames(events: seq<Event>, k: nat)
    ensures Whole(events, k) <= |events| && |FrameAll(events[..Whole(events, k)])| <= k
    ensures Whole(events, k) < |events| ==> k < |FrameAll(events[..Whole(events, k) + 1])|
  {
    if events != [] {
      var front := events[..|events| - 1];
      if |FrameAll(events)| <= k {
        assert events[..|events|] == events;
      } else {
        WholeFrames(front, k);
        var j := Whole(front, k);
        assert events[..j] == front[..j];
        if j < |front| {
          assert events[..j + 1] == front[..j + 1];
        } else {
          assert events[..j + 1] == events;
        }
      }
    }
  }

  /** The text of the first j frames is the beginning of the whole text. */
  lemma {:induction false} FramesBegin(events: seq<Event>, j: nat)
    requires j <= |events|
    ensures FrameAll(events[..j]) <= FrameAll(events)
    decreases |events| - j
  {
    if j == |events| {
      assert events[..j] == events;
    } else {
      FramesBegin(events, j + 1);
      assert events[..j + 1] == events[..j] + [events[j]];
      FrameAllLast(events[..j], events[j]);
    }
  }

  lemma FrameAllNext(events: seq<Event>, j: nat)
    requires j < |events|
    ensures FrameAll(events[..j + 1]) == FrameAll(events[..j]) + Frame(events[j].name, events[j].data)
  {
    assert events[..j + 1] == events[..j] + [events[j]];
    FrameAllLast(events[..j], events[j]);
  }

  lemma BeginningOf(text: string, a: string, b: string, r: nat)
    requires a + b <= text && r <= |b|
    ensures |a| + r <= |text| && text[..|a| + r] == a + b[..r]
  {
    assert text[..|a| + r] == (a + b)[..|a| + r];
  }

  /** The cut text is its complete frames and the beginning of the next. */
  lemma CutText(events: seq<Event>, k: nat) returns (r: nat)
    requires Whole(events, k) < |events|
    ensures var j := Whole(events, k);
            && r < |Frame(events[j].name, events[j].data)| && k == |FrameAll(events[..j])| + r < |FrameAll(events)|
            && FrameAll(events)[..k] == FrameAll(events[..j]) + Frame(events[j].name, events[j].data)[..r]
            && (k + 1 == |FrameAll(events[..j + 1])| <==> r == |Frame(events[j].name, events[j].data)| - 1)
  {
    var j := Whole(events, k);
    WholeFrames(events, k);
    r := k - |FrameAll(events[..j])|;
    FramesBegin(events, j + 1);
    FrameAllNext(events, j);
    BeginningOf(FrameAll(events), FrameAll(events[..j]), Frame(events[j].name, events[j].data), r);
  }

  /** The reader after a cut-off frame: nothing to hand over, or just the event of that frame. */
  ghost predicate Pending(accepts: Event -> bool, f: Reader, log: seq<Event>, e: Event, last: bool) {
    && !f.failed && f.log == log
    && (if last then f.data != [] && Dispatch(accepts, f).log == log + [e] else f.data == [])
  }

  lemma PendingEvent(accepts: Event -> bool, log: seq<Event>, e: Event)
    requires accepts(e)
    ensures Pending(accepts, Reader(e.name, [e.data], log, false), log, e, true)
  {
    assert Join([e.data]) == e.data;
  }

  /** The reader after the first r characters of a frame. */
  function AfterCut(accepts: Event -> bool, log: seq<Event>, e: Event, r: nat): Reader
    requires r < |Frame(e.name, e.data)|
  {
    Feed(accepts, Reader("message", [], log, false), Frame(e.name, e.data)[..r])
  }

  lemma CutBeforeData(accepts: Event -> bool, log: seq<Event>, e: Event, r: nat)
    requires Carried(e.name) && Carried(e.data) && r < |Frame(e.name, e.data)| - 1
    ensures Pending(accepts, AfterCut(accepts, log, e, r), log, e, false)
  {
    FrameLength(e);
    if r < NameEnd(e) {
      FeedNoField(accepts, Reader("message", [], log, false), e, r);
    } else {
      FeedNameOnly(accepts, Reader("message", [], log, false), e, r);
    }
  }

  lemma CutAfterData(accepts: Event -> bool, log: seq<Event>, e: Event, r: nat)
    requires Carried(e.name) && Carried(e.data) && accepts(e) && r == |Frame(e.name, e.data)| - 1
    ensures Pending(accepts, AfterCut(accepts, log, e, r), log, e, true)
  {
    FeedBothFields(accepts, Reader("message", [], log, false), e);
    PendingEvent(accepts, log, e);
  }

  lemma ReadCut(accepts: Event -> bool, log: seq<Event>, e: Event, r: nat)
    requires Carried(e.name) && Carried(e.data) && accepts(e) && r < |Frame(e.name, e.data)|
    ensures Pending(accepts, AfterCut(accepts, log, e, r), log, e, r == |Frame(e.name, e.data)| - 1)
  {
    if r < |Frame(e.name, e.data)| - 1 {
      CutBeforeData(accepts, log, e, r);
    } else {
      CutAfterData(accepts, log, e, r);
    }
  }

  lemma ReadPartial(accepts: Event -> bool, events: seq<Event>, j: nat, r: nat)
    requires j < |events| && r < |Frame(events[j].name, events[j].data)|
    requires forall e :: e in events ==> Carried(e.name) && Carried(e.data) && accepts(e)
    ensures ReadAll(accepts, FrameAll(events[..j]) + Frame(events[j].name, events[j].data)[..r]).log
         == if r == |Frame(events[j].name, events[j].data)| - 1 then events[..j] + [events[j]] else events[..j]
  {
    assert events[j] in events;
    FeedFrames(accepts, events[..j], Frame(events[j].name, events[j].data)[..r]);
    ReadCut(accepts, events[..j], events[j], r);
  }

  lemma ReadComplete(accepts: Event -> bool, events: seq<Event>)
    requires forall e :: e in events ==> Carried(e.name) && Carried(e.data) && accepts(e)
    ensures ReadAll(accepts, FrameAll(events)).log == events
  {
    ConcatLast([], FrameAll(events));
    assert [] + [FrameAll(events)] == [FrameAll(events)];
    RoundTrip(accepts, events, [FrameAll(events)]);
  }

  /** The events that a stream cut off after k characters gives. */
  ghost function Received(events: seq<Event>, k: nat): seq<Event> {
    WholeFrames(events, k);
    var j := Whole(events, k);
    if j < |events| && k + 1 == |FrameAll(events[..j + 1])| then events[..j + 1] else events[..j]
  }

  lemma ReceivedInside(events: seq<Event>, k: nat, j: nat)
    requires j == Whole(events, k) < |events|
    ensures Received(events, k) ==
              if k + 1 == |FrameAll(events[..j + 1])| then events[..j] + [events[j]] else events[..j]
  {
    WholeFrames(events, k);
    assert events[..j + 1] == events[..j] + [events[j]];
  }

  lemma CutOffInside(accepts: Event -> bool, events: seq<Event>, k: nat, text: string)
    requires Whole(events, k) < |events| && k <= |FrameAll(events)| && text == FrameAll(events)[..k]
    requires forall e :: e in events ==> Carried(e.name) && Carried(e.data) && accepts(e)
    ensures ReadAll(accepts, text).log == Received(events, k)
  {
    var r := CutText(events, k);
    ReadPartial(accepts, events, Whole(events, k), r);
    ReceivedInside(events, k, Whole(events, k));
  }

  lemma CutOffNowhere(accepts: Event -> bool, events: seq<Event>, k: nat, text: string)
    requires Whole(events, k) >= |events| && k <= |FrameAll(events)| && text == FrameAll(events)[..k]
    requires forall e :: e in events ==> Carried(e.name) && Carried(e.data) && accepts(e)
    ensures ReadAll(accepts, text).log == Received(events, k)
  {
    WholeFrames(events, k);
    assert events[..|events|] == events;
    assert text == FrameAll(events);
    ReadComplete(accepts, events);
  }

  /** A stream of framed events that ends after k characters gives the events whose frames are complete, and
      one more exactly if only the blank line of its frame is missing. */
  lemma CutOffExactly(accepts: Event -> bool, events: seq<Event>, k: nat)
    requires k <= |FrameAll(events)|
    requires forall e :: e in events ==> Carried(e.name) && Carried(e.data) && accepts(e)
    ensures ReadAll(accepts, FrameAll(events)[..k]).log == Received(events, k)
  {
    if Whole(events, k) < |events| {
      CutOffInside(accepts, events, k, FrameAll(events)[..k]);
    } else {
      CutOffNowhere(accepts, events, k, FrameAll(events)[..k]);
    }
  }

  /** The shortest such stream: one event without its blank line is handed over, although its frame is not
      complete. */
  lemma UnfinishedEventDispatched(accepts: Event -> bool, e: Event)
    requires Carried(e.name) && Carried(e.data) && accepts(e)
    ensures ReadAll(accepts, "event: " + e.name + "\n" + ("data: " + e.data + "\n" + "")).log == [e]
  {
    var r0 := START;
    FieldLines(accepts, r0, e);
    FeedLine(accepts, r0, "event: " + e.name, "data: " + e.data + "\n" + "");
    FeedDataLine(accepts, r0.(event := e.name), e);
    assert Join([e.data]) == e.data;
  }

  // ---------------------------------------------------------------- What names can be carried

  /** The collected name and every name handed over so far can be carried. */
  ghost predicate NamesCarried(r: Reader) {
    Carried(r.event) && forall e :: e in r.log ==> Carried(e.name)
  }

  lemma LineKeepsNames(accepts: Event -> bool, r: Reader, raw: string)
    requires NamesCarried(r) && '\n' !in raw
    ensures NamesCarried(OnLine(accepts, r, raw))
  {
    var line := StripReturn(raw);
    if "event:" <= line {
      var i, j := TrimCuts(line[6..], JsSpace);
      assert forall c :: c in line[6..][i..j] ==> c in line;
      assert forall c :: c in line ==> c in raw;
    }
  }

  /** No text at all makes the reader report a name outside that set, so the condition on names in the
      round trip is necessary. */
  lemma {:induction false} OnlyCarriedNames(accepts: Event -> bool, r: Reader, text: string)
    requires NamesCarried(r)
    ensures NamesCarried(Feed(accepts, r, text))
    decreases |text|
  {
    NewlineIsFirst(text);
    var n := Newline(text);
    if n < |text| {
      LineKeepsNames(accepts, r, text[..n]);
      OnlyCarriedNames(accepts, OnLine(accepts, r, text[..n]), text[n + 1..]);
    }
  }

  // ---------------------------------------------------------------- What data can be carried

  function Excess(text: string): nat {
    if |text| > 5 then |text| - 5 else 0
  }

  lemma {:induction false} TrimNotLonger(s: string, space: char -> bool)
    ensures |Trim(s, space)| <= |s|
  {
    var i, j := TrimCuts(s, space);
  }

  lemma JoinOneMore(lines: seq<string>, line: string)
    ensures |Join(lines + [line])| <= |Join(lines)| + 1 + |line|
    ensures lines == [] ==> Join(lines + [line]) == line
  {
    assert (lines + [line])[..|lines|] == lines;
  }

  /** A line adds less to the collected data than it is long, its field name being lost. */
  lemma LineAddsLess(accepts: Event -> bool, r: Reader, raw: string)
    ensures |Join(OnLine(accepts, r, raw).data)| <= |Join(r.data)| + Excess(raw + "\n")
  {
    var line := StripReturn(raw);
    if !r.failed && "data:" <= line {
      TrimNotLonger(line[5..], JsSpace);
      JoinOneMore(r.data, Trim(line[5..], JsSpace));
    }
  }

  lemma LineLogs(accepts: Event -> bool, r: Reader, raw: string, e: Event)
    requires e in OnLine(accepts, r, raw).log
    ensures e in r.log || e.data == Join(r.data)
  {
  }

  /** Data handed over or still collected is shorter than the text that brought it. */
  lemma {:induction false} DataBounded(accepts: Event -> bool, r: Reader, text: string, e: Event)
    ensures |Join(Feed(accepts, r, text).data)| <= |Join(r.data)| + Excess(text)
    ensures e in Feed(accepts, r, text).log ==> e in r.log || |e.data| <= |Join(r.data)| + Excess(text)
    decreases |text|
  {
    NewlineIsFirst(text);
    var n := Newline(text);
    if n < |text| {
      var r1, rest := OnLine(accepts, r, text[..n]), text[n + 1..];
      LineAddsLess(accepts, r, text[..n]);
      DataBounded(accepts, r1, rest, e);
      if e in r1.log {
        LineLogs(accepts, r, text[..n], e);
      }
    }
  }

  lemma PaddedTrim(line: string)
    requires line != "" && line[0] == ' '
    ensures |Trim(line, JsSpace)| < |line| && Trimmed(Trim(line, JsSpace), JsSpace)
  {
    assert TrimLeft(line, JsSpace) == TrimLeft(line[1..], JsSpace);
    TrimNotLonger(line[1..], JsSpace);
    var i, j := TrimCuts(line, JsSpace);
  }

  lemma DataLine(accepts: Event -> bool, name: string, first: string) returns (t: string)
    ensures |t| <= |first| && Trimmed(t, JsSpace)
    ensures OnLine(accepts, Reader(name, [], [], false), "data: " + first) == Reader(name, [t], [], false)
  {
    var raw := "data: " + first;
    var line := StripReturn(raw);
    assert raw[5] == ' ' && |line| <= |raw| && |raw| == 6 + |first|;
    assert |line| >= 6 && line[..5] == "data:" && line[0] == 'd';
    assert "data:" <= line && !("event:" <= line);
    PaddedTrim(line[5..]);
    t := Trim(line[5..], JsSpace);
  }

  /** Reading the two fields of a frame whose data begins with the line `first`. */
  lemma FeedFields(accepts: Event -> bool, name: string, first: string, rest: string) returns (t: string)
    requires Carried(name) && '\n' !in first
    ensures |t| <= |first| && Trimmed(t, JsSpace)
    ensures Feed(accepts, START, "event: " + name + "\n" + ("data: " + first + "\n" + rest))
         == Feed(accepts, Reader(name, [t], [], false), rest)
  {
    FieldLines(accepts, START, Event(name, ""));
    FeedLine(accepts, START, "event: " + name, "data: " + first + "\n" + rest);
    t := DataLine(accepts, name, first);
    FeedLine(accepts, Reader(name, [], [], false), "data: " + first, rest);
  }

  lemma FrameIsTwoFields(name: string, first: string, rest: string)
    ensures Frame(name, first + rest) == "event: " + name + "\n" + ("data: " + first + (rest + "\n\n"))
  {
  }

  lemma BrokenFrame(name: string, first: string, second: string)
    ensures Frame(name, first + "\n" + second)
            == "event: " + name + "\n" + ("data: " + first + "\n" + (second + "\n\n"))
  {
  }

  lemma BrokenAt(data: string) returns (first: string, second: string)
    requires '\n' in data
    ensures data == first + "\n" + second && '\n' !in first
  {
    NewlineIsFirst(data);
    var n := Newline(data);
    assert data[..|data|] == data;
    first, second := data[..n], data[n + 1..];
  }

  /** Data with a line break comes back shorter, or not at all. */
  lemma BrokenDataLost(accepts: Event -> bool, e: Event)
    requires Carried(e.name) && '\n' in e.data
    ensures e !in ReadAll(accepts, Frame(e.name, e.data)).log
  {
    var first, second := BrokenAt(e.data);
    BrokenFrame(e.name, first, second);
    var t := FeedFields(accepts, e.name, first, second + "\n\n");
    DataBounded(accepts, Reader(e.name, [t], [], false), second + "\n\n", e);
  }

  /** Data on one line comes back trimmed. */
  lemma OneLineTrimmed(accepts: Event -> bool, e: Event)
    requires Carried(e.name) && '\n' !in e.data && e in ReadAll(accepts, Frame(e.name, e.data)).log
    ensures Trimmed(e.data, JsSpace)
  {
    FrameIsTwoFields(e.name, e.data, "");
    assert e.data + "" == e.data;
    assert "data: " + e.data + ("" + "\n\n") == "data: " + e.data + "\n" + "\n";
    var t := FeedFields(accepts, e.name, e.data, "\n");
    var r := Reader(e.name, [t], [], false);
    assert "\n" == "" + "\n" + "";
    FeedLine(accepts, r, "", "");
    FeedNothing(accepts, OnLine(accepts, r, ""), "");
  }

  /** The last dispatch of the stream. */
  lemma ReadAllNames(accepts: Event -> bool, text: string)
    ensures NamesCarried(ReadAll(accepts, text))
  {
    OnlyCarriedNames(accepts, START, text);
  }

  lemma SurvivorsAreCarried(accepts: Event -> bool, e: Event)
    requires ReadAll(accepts, Frame(e.name, e.data)).log == [e]
    ensures Carried(e.name) && Carried(e.data)
  {
    ReadAllNames(accepts, Frame(e.name, e.data));
    assert e in [e];
    if '\n' in e.data {
      BrokenDataLost(accepts, e);
    } else {
      OneLineTrimmed(accepts, e);
    }
  }

  /** An event survives framing and reading exactly when its name and its data are each one trimmed line. */
  lemma CarriedExactly(accepts: Event -> bool, e: Event)
    requires accepts(e)
    ensures ReadAll(accepts, Frame(e.name, e.data)).log == [e] <==> Carried(e.name) && Carried(e.data)
  {
    if Carried(e.name) && Carried(e.data) {
      FrameAllLast([], e);
      assert [] + [e] == [e] && FrameAll([]) + Frame(e.name, e.data) == Frame(e.name, e.data);
      ConcatLast([], FrameAll([e]));
      assert [] + [FrameAll([e])] == [FrameAll([e])];
      RoundTrip(accepts, [e], [FrameAll([e])]);
    }
    if ReadAll(accepts, Frame(e.name, e.data)).log == [e] {
      SurvivorsAreCarried(accepts, e);
    }
  }
}
