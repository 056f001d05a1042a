/**
  What the event reader makes of a block of lines, whoever wrote it: fields in any number and order, comments
  among them, lines ended by a newline with or without a carriage return. The name is the last one given,
  the data lines are joined by newlines, a block without data hands over nothing, and a block that is
  refused ends the reader.
*/
module SseBlocks {
  import opened Text
  import opened Sse

  datatype Field = Named(pad: string, text: string) | Data(pad: string, text: string) | Comment(text: string)

  /** A value may follow its colon at once or after a space. */
  predicate Proper(f: Field) {
    if f.Comment? then '\n' !in f.text else Carried(f.text) && (f.pad == "" || f.pad == " ")
  }

  function LineOf(f: Field): string {
    match f
    case Named(pad, text) => "event:" + pad + text
    case Data(pad, text) => "data:" + pad + text
    case Comment(text) => ":" + text
  }

  /** What a line may have before its newline. */
  predicate LineEnd(cr: string) {
    cr == "" || cr == "\r"
  }

  function Lines(fields: seq<Field>, cr: string): string {
    if fields == [] then "" else LineOf(fields[0]) + cr + "\n" + Lines(fields[1..], cr)
  }

  function Block(fields: seq<Field>, cr: string): string {
    Lines(fields, cr) + cr + "\n"
  }

  /** The last name, or the one before. */
  function NameAfter(name: string, fields: seq<Field>): string
    decreases |fields|
  {
    if fields == [] then name
    else NameAfter(if fields[0].Named? then fields[0].text else name, fields[1..])
  }

  function DataIn(fields: seq<Field>): seq<string> {
    if fields == [] then [] else (if fields[0].Data? then [fields[0].text] else []) + DataIn(fields[1..])
  }

  function Joined(lines: seq<string>): string {
    if lines == [] then "" else if |lines| == 1 then lines[0] else lines[0] + "\n" + Joined(lines[1..])
  }

  function EventOf(fields: seq<Field>): Event {
    Event(NameAfter("message", fields), Joined(DataIn(fields)))
  }

  function Ready(log: seq<Event>): Reader {
    Reader("message", [], log, false)
  }

  // ---------------------------------------------------------------- Lines

  lemma {:induction false} JoinedIsJoin(lines: seq<string>)
    ensures Joined(lines) == Join(lines)
  {
    if |lines| > 1 {
      var n := |lines| - 1;
      JoinedIsJoin(lines[1..]);
      if n > 1 {
        assert lines[1..][..n - 1] == lines[..n][1..];
        JoinedIsJoin(lines[..n]);
        JoinedIsJoin(lines[..n][1..]);
      }
      JoinFront(lines);
    }
  }

  /** Joining from the back is joining from the front. */
  lemma {:induction false} JoinFront(lines: seq<string>)
    requires |lines| > 1
    ensures Join(lines) == lines[0] + "\n" + Join(lines[1..])
  {
    var n := |lines| - 1;
    var front, last := lines[..n], lines[n];
    if n > 1 {
      JoinFront(front);
      assert front[1..] == lines[1..][..n - 1];
    } else {
      assert front == [lines[0]] && lines[1..] == [last];
    }
  }

  lemma StripCr(line: string, cr: string)
    requires LineEnd(cr) && (line == "" || line[|line| - 1] != '\r')
    ensures StripReturn(line + cr) == line
  {
    if cr == "" {
      assert line + cr == line;
    } else {
      assert (line + cr)[..|line + cr| - 1] == line;
    }
  }

  function AfterField(r: Reader, f: Field): Reader {
    match f
    case Named(_, text) => r.(event := text)
    case Data(_, text) => r.(data := r.data + [text])
    case Comment(_) => r
  }

  lemma CarriedEnd(prefix: string, text: string)
    requires Carried(text) && prefix != "" && prefix[|prefix| - 1] != '\r'
    ensures (prefix + text)[|prefix + text| - 1] != '\r'
  {
    if text == "" { assert prefix + text == prefix; } else { assert !JsSpace(text[|text| - 1]); }
  }

  lemma FieldRead(accepts: Event -> bool, r: Reader, f: Field, cr: string)
    requires Proper(f) && LineEnd(cr) && !r.failed
    ensures OnLine(accepts, r, LineOf(f) + cr) == AfterField(r, f) && '\n' !in LineOf(f) + cr
  {
    OneLine(f, cr);
    if f.Comment? {
      CommentText(accepts, r, f, cr);
    } else {
      CarriedEnd((if f.Named? then "event:" else "data:") + f.pad, f.text);
      StripCr(LineOf(f), cr);
      FieldText(accepts, r, f, cr);
    }
  }

  lemma PaddedValue(pad: string, text: string)
    requires Carried(text) && (pad == "" || pad == " ")
    ensures Trim(pad + text, JsSpace) == text
  {
    if pad == "" {
      assert pad + text == text;
      TrimOfTrimmed(text, JsSpace);
    } else {
      StripNothing(" ", text);
    }
  }

  lemma OneLine(f: Field, cr: string)
    requires Proper(f) && LineEnd(cr)
    ensures '\n' !in LineOf(f) + cr
  {
    assert '\n' !in f.text && '\n' !in cr;
    assert '\n' !in "event:" && '\n' !in "data:" && '\n' !in ":";
    if !f.Comment? { assert '\n' !in f.pad; }
  }

  lemma CommentText(accepts: Event -> bool, r: Reader, f: Field, cr: string)
    requires f.Comment? && LineEnd(cr) && !r.failed
    ensures OnLine(accepts, r, LineOf(f) + cr) == r
  {
    var line := StripReturn(LineOf(f) + cr);
    assert line != "" && line[0] == ':';
  }

  lemma FieldText(accepts: Event -> bool, r: Reader, f: Field, cr: string)
    requires !f.Comment? && Proper(f) && !r.failed && StripReturn(LineOf(f) + cr) == LineOf(f)
    ensures OnLine(accepts, r, LineOf(f) + cr) == AfterField(r, f)
  {
    PaddedValue(f.pad, f.text);
    ValueAfter(if f.Named? then "event:" else "data:", f.pad, f.text);
  }

  lemma ValueAfter(key: string, pad: string, text: string)
    requires key == "event:" || key == "data:"
    ensures key <= key + pad + text && (key + pad + text)[|key|..] == pad + text && key + pad + text != ""
    ensures "event:" <= key + pad + text <==> key == "event:"
  {
    var line := key + pad + text;
    assert line == key + (pad + text) && line[0] == key[0];
  }

  // ---------------------------------------------------------------- Blocks

  lemma {:induction false} FieldsRead(accepts: Event -> bool, r: Reader, fields: seq<Field>, cr: string, rest: string)
    requires (forall f :: f in fields ==> Proper(f)) && LineEnd(cr) && !r.failed
    ensures Feed(accepts, r, Lines(fields, cr) + rest)
            == Feed(accepts, r.(event := NameAfter(r.event, fields), data := r.data + DataIn(fields)), rest)
    decreases |fields|
  {
    if fields == [] {
      assert Lines(fields, cr) + rest == rest && r.data + [] == r.data;
    } else {
      var f := fields[0];
      FieldRead(accepts, r, f, cr);
      FirstLine(LineOf(f) + cr, Lines(fields[1..], cr), rest);
      FeedLine(accepts, r, LineOf(f) + cr, Lines(fields[1..], cr) + rest);
      FieldsRead(accepts, AfterField(r, f), fields[1..], cr, rest);
      FirstData(r, fields);
    }
  }

  lemma FirstLine(line: string, later: string, rest: string)
    ensures (line + "\n" + later) + rest == line + "\n" + (later + rest)
  {
    Associative(line + "\n", later, rest);
  }

  lemma FirstData(r: Reader, fields: seq<Field>)
    requires fields != []
    ensures AfterField(r, fields[0]).data + DataIn(fields[1..]) == r.data + DataIn(fields)
    ensures NameAfter(AfterField(r, fields[0]).event, fields[1..]) == NameAfter(r.event, fields)
  {
    AppendThree(r.data, if fields[0].Data? then [fields[0].text] else [], DataIn(fields[1..]));
  }

  lemma AppendThree<T>(a: seq<T>, b: seq<T>, c: seq<T>)
    ensures (a + b) + c == a + (b + c) && a + [] == a
  {
  }

  /** The reader after a block: nothing handed over, the event handed over, or the end. */
  function AfterBlock(accepts: Event -> bool, log: seq<Event>, fields: seq<Field>): Reader {
    if DataIn(fields) == [] then Ready(log)
    else if accepts(EventOf(fields)) then Ready(log + [EventOf(fields)])
    else Reader(NameAfter("message", fields), DataIn(fields), log, true)
  }

  lemma BlockRead(accepts: Event -> bool, log: seq<Event>, fields: seq<Field>, cr: string, rest: string)
    requires (forall f :: f in fields ==> Proper(f)) && LineEnd(cr)
    ensures Feed(accepts, Ready(log), Block(fields, cr) + rest) == Feed(accepts, AfterBlock(accepts, log, fields), rest)
  {
    var r := Reader(NameAfter("message", fields), DataIn(fields), log, false);
    assert Block(fields, cr) + rest == Lines(fields, cr) + (cr + "\n" + rest);
    FieldsRead(accepts, Ready(log), fields, cr, cr + "\n" + rest);
    assert [] + DataIn(fields) == DataIn(fields);
    StripCr("", cr);
    assert "" + cr == cr;
    FeedLine(accepts, r, cr, rest);
    JoinedIsJoin(DataIn(fields));
  }

  function Blocks(blocks: seq<seq<Field>>, cr: string): string {
    if blocks == [] then "" else Block(blocks[0], cr) + Blocks(blocks[1..], cr)
  }

  /** The events of the blocks that have data. */
  function EventsOf(blocks: seq<seq<Field>>): seq<Event> {
    if blocks == [] then []
    else (if DataIn(blocks[0]) == [] then [] else [EventOf(blocks[0])]) + EventsOf(blocks[1..])
  }

  ghost predicate AllProper(blocks: seq<seq<Field>>) {
    forall b, f :: b in blocks && f in b ==> Proper(f)
  }

  lemma {:induction false} BlocksRead(accepts: Event -> bool, log: seq<Event>, blocks: seq<seq<Field>>, cr: string,
                                      rest: string)
    requires AllProper(blocks) && LineEnd(cr) && forall e :: e in EventsOf(blocks) ==> accepts(e)
    ensures Feed(accepts, Ready(log), Blocks(blocks, cr) + rest) == Feed(accepts, Ready(log + EventsOf(blocks)), rest)
    decreases |blocks|
  {
    if blocks == [] {
      assert Blocks(blocks, cr) + rest == rest && log + [] == log;
    } else {
      var first, later := blocks[0], Blocks(blocks[1..], cr);
      Associative(Block(first, cr), later, rest);
      BlockRead(accepts, log, first, cr, later + rest);
      FirstEvent(accepts, log, blocks);
      BlocksRead(accepts, AfterBlock(accepts, log, first).log, blocks[1..], cr, rest);
    }
  }

  lemma FirstEvent(accepts: Event -> bool, log: seq<Event>, blocks: seq<seq<Field>>)
    requires blocks != [] && forall e :: e in EventsOf(blocks) ==> accepts(e)
    ensures forall e :: e in EventsOf(blocks[1..]) ==> accepts(e)
    ensures AfterBlock(accepts, log, blocks[0]) == Ready(AfterBlock(accepts, log, blocks[0]).log)
    ensures AfterBlock(accepts, log, blocks[0]).log + EventsOf(blocks[1..]) == log + EventsOf(blocks)
  {
    var first := if DataIn(blocks[0]) == [] then [] else [EventOf(blocks[0])];
    assert EventsOf(blocks) == first + EventsOf(blocks[1..]);
    assert forall e :: e in first || e in EventsOf(blocks[1..]) ==> e in EventsOf(blocks);
    assert first != [] ==> first[0] in first;
    AppendThree(log, first, EventsOf(blocks[1..]));
  }

  /** A stream of blocks: the reader hands over the event of every block that has data, in order. */
  lemma StreamRead(accepts: Event -> bool, blocks: seq<seq<Field>>, cr: string)
    requires AllProper(blocks) && LineEnd(cr) && forall e :: e in EventsOf(blocks) ==> accepts(e)
    ensures ReadAll(accepts, Blocks(blocks, cr)) == Ready(EventsOf(blocks))
  {
    BlocksRead(accepts, [], blocks, cr, "");
    assert [] + EventsOf(blocks) == EventsOf(blocks) && Blocks(blocks, cr) + "" == Blocks(blocks, cr);
    FeedNothing(accepts, Ready(EventsOf(blocks)), "");
  }

  // ---------------------------------------------------------------- Refusal

  lemma FrameIsBlock(e: Event)
    ensures Frame(e.name, e.data) == Block([Named(" ", e.name), Data(" ", e.data)], "")
    ensures EventOf([Named(" ", e.name), Data(" ", e.data)]) == e
            && DataIn([Named(" ", e.name), Data(" ", e.data)]) == [e.data]
  {
    OneMoreLine(Data(" ", e.data), []);
    OneMoreLine(Named(" ", e.name), [Data(" ", e.data)]);
    assert [Named(" ", e.name)] + [Data(" ", e.data)] == [Named(" ", e.name), Data(" ", e.data)]
           && [Data(" ", e.data)] + [] == [Data(" ", e.data)];
    BlockText(e);
    TwoFields(e);
  }

  lemma OneMoreLine(f: Field, fields: seq<Field>)
    ensures Lines([f] + fields, "") == LineOf(f) + "\n" + Lines(fields, "")
  {
    assert ([f] + fields)[1..] == fields && LineOf(f) + "" == LineOf(f);
  }

  lemma BlockText(e: Event)
    ensures Frame(e.name, e.data) == "event: " + e.name + "\n" + ("data: " + e.data + "\n" + "") + "" + "\n"
  {
  }

  lemma TwoFields(e: Event)
    ensures EventOf([Named(" ", e.name), Data(" ", e.data)]) == e
            && DataIn([Named(" ", e.name), Data(" ", e.data)]) == [e.data]
  {
    var fields := [Named(" ", e.name), Data(" ", e.data)];
    assert fields[1..] == [Data(" ", e.data)] && [Data(" ", e.data)][1..] == [];
    assert DataIn([]) == [] && DataIn([Data(" ", e.data)]) == [e.data];
    assert NameAfter(e.name, [Data(" ", e.data)]) == NameAfter(e.name, []);
  }

  lemma FramesSplit(events: seq<Event>, j: nat)
    requires j < |events|
    ensures exists rest :: FrameAll(events) == FrameAll(events[..j]) + (Frame(events[j].name, events[j].data) + rest)
  {
    FramesBegin(events, j + 1);
    FrameAllNext(events, j);
    var rest := FrameAll(events)[|FrameAll(events[..j + 1])|..];
    assert FrameAll(events) == FrameAll(events[..j + 1]) + rest;
    Associative(FrameAll(events[..j]), Frame(events[j].name, events[j].data), rest);
  }

  /** The first event that is refused ends the reader: however the framed text is cut into chunks, what was before
      it has been handed over, and nothing after it is. */
  lemma RefusedEnds(accepts: Event -> bool, events: seq<Event>, j: nat, chunks: seq<string>)
    requires (forall e :: e in events ==> Carried(e.name) && Carried(e.data)) && Concat(chunks) == FrameAll(events)
    requires j < |events| && (forall i :: 0 <= i < j ==> accepts(events[i])) && !accepts(events[j])
    ensures ReadAll(accepts, Concat(chunks)).failed && ReadAll(accepts, Concat(chunks)).log == events[..j]
  {
    var e := events[j];
    FramesSplit(events, j);
    var rest :| FrameAll(events) == FrameAll(events[..j]) + (Frame(e.name, e.data) + rest);
    FeedFrames(accepts, events[..j], Frame(e.name, e.data) + rest);
    FrameIsBlock(e);
    BlockRead(accepts, events[..j], [Named(" ", e.name), Data(" ", e.data)], "", rest);
    FeedFailed(accepts, AfterBlock(accepts, events[..j], [Named(" ", e.name), Data(" ", e.data)]), rest);
  }
}
