/** The chat hook of the bh-rag frontend (`bh-rag/frontend/src/hooks/useChatStreaming.ts`):
    a flat list of messages, the single-message update, and the two readers of a reply —
    server-sent events and newline-delimited JSON. Parsed JSON payloads go to
    `handleChunk`, whose body is empty, so only text that does not parse reaches the
    screen. `fetch`, the ids and `JSON.parse` are inputs. */
module BhChat {
  import opened Options
  import opened Strings
  import opened Json
  import opened Framing

  datatype Role = User | Agent

  /** A message; the optional fields are `None` when absent. */
  datatype BhMessage = BhMessage(
    id: string, role: Role, text: string, isPartial: Option<bool>,
    citations: Option<seq<Json>>, sourceDocuments: Option<seq<Json>>)

  /** The fields a patch can set: the code only ever patches `text` and `isPartial`. */
  datatype Patch = Patch(text: Option<string>, isPartial: Option<bool>)

  /** `{ ...m, ...patch }`. */
  function Merge(m: BhMessage, p: Patch): (r: BhMessage)
    ensures r.id == m.id && r.role == m.role && r.citations == m.citations && r.sourceDocuments == m.sourceDocuments
  {
    m.(text := if p.text.Some? then p.text.value else m.text,
       isPartial := if p.isPartial.Some? then p.isPartial else m.isPartial)
  }

  /** The patch that ignores the message it is given. */
  function Constant(p: Patch): BhMessage -> Patch {
    _ => p
  }

  /** `updateLast(id, patch)`: the message with id `id` is merged with its patch. */
  function UpdateLast(msgs: seq<BhMessage>, id: string, patch: BhMessage -> Patch): seq<BhMessage> {
    seq(|msgs|, i requires 0 <= i < |msgs| => if msgs[i].id != id then msgs[i] else Merge(msgs[i], patch(msgs[i])))
  }

  /** Only the message with the matching id changes, by merging its patch; the others, and
      the order, stay as they were. */
  lemma UpdateLastOnly(msgs: seq<BhMessage>, id: string, patch: BhMessage -> Patch, i: int)
    requires 0 <= i < |msgs|
    ensures var r := UpdateLast(msgs, id, patch);
      |r| == |msgs| && r[i].id == msgs[i].id
      && r[i] == if msgs[i].id == id then Merge(msgs[i], patch(msgs[i])) else msgs[i]
  {
  }

  /** `(prev.text || "") + t`. */
  function AppendText(m: BhMessage, t: string): (r: BhMessage)
    ensures r.text == m.text + t && r.isPartial == m.isPartial
    ensures r.id == m.id && r.role == m.role && r.citations == m.citations && r.sourceDocuments == m.sourceDocuments
  {
    m.(text := m.text + t)
  }

  lemma AppendEmpty(m: BhMessage)
    ensures AppendText(m, "") == m
  {
    assert m.text + "" == m.text;
  }

  lemma AppendTextTwice(m: BhMessage, a: string, b: string)
    ensures AppendText(AppendText(m, a), b) == AppendText(m, a + b)
  {
    assert m.text + a + b == m.text + (a + b);
  }

  // ---------------------------------------------------------------------------
  // server-sent events

  const EventSeparator: string := "\n\n"
  const EventStream: string := "text/event-stream"
  const DataPrefix: string := "data:"
  const Done: string := "[DONE]"

  /** One line of an event: a "data:" line's payload is the rest after five characters,
      trimmed; `[DONE]` stops, a payload that does not parse is appended, one that parses
      goes to `handleChunk` and changes nothing. Other lines are skipped. */
  function HandleLine(m: BhMessage, line: string, parse: string -> Option<Json>): (BhMessage, bool) {
    if !StartsWith(line, DataPrefix) then (m, false)
    else
      var data := Trim(line[5..]);
      if data == Done then (m.(isPartial := Some(false)), true)
      else if parse(data).Some? then (m, false)
      else (AppendText(m, data), false)
  }

  function LineHandler(parse: string -> Option<Json>): (BhMessage, string) -> (BhMessage, bool) {
    (m, line) => HandleLine(m, line, parse)
  }

  /** One event: every line of it, in order, until `[DONE]`. */
  function HandleEvent(m: BhMessage, part: string, parse: string -> Option<Json>): (BhMessage, bool) {
    Pieces(m, Split(part, "\n"), LineHandler(parse))
  }

  function EventHandler(parse: string -> Option<Json>): (BhMessage, string) -> (BhMessage, bool) {
    (m, part) => HandleEvent(m, part, parse)
  }

  /** The payloads of the "data:" lines, in order. */
  function DataPayloads(lines: seq<string>): seq<string> {
    if |lines| == 0 then []
    else if StartsWith(lines[0], DataPrefix) then [Trim(lines[0][5..])] + DataPayloads(lines[1..])
    else DataPayloads(lines[1..])
  }

  /** Every "data:" line of an event is used, not only the first: when no payload is
      `[DONE]` and none parses, all of them are appended in order. */
  lemma {:induction false} EveryDataLine(m: BhMessage, lines: seq<string>, parse: string -> Option<Json>)
    requires forall k :: 0 <= k < |lines| && StartsWith(lines[k], DataPrefix) ==>
      Trim(lines[k][5..]) != Done && parse(Trim(lines[k][5..])).None?
    ensures Pieces(m, lines, LineHandler(parse)) == (AppendText(m, Flatten(DataPayloads(lines))), false)
    decreases |lines|
  {
    if |lines| == 0 {
      AppendEmpty(m);
    } else {
      var (m1, stop) := HandleLine(m, lines[0], parse);
      EveryDataLine(m1, lines[1..], parse);
      if StartsWith(lines[0], DataPrefix) {
        var d := Trim(lines[0][5..]);
        assert m1 == AppendText(m, d) && !stop;
        assert Flatten([d] + DataPayloads(lines[1..])) == d + Flatten(DataPayloads(lines[1..]));
        AppendTextTwice(m, d, Flatten(DataPayloads(lines[1..])));
      }
    }
  }

  /** A `[DONE]` line stops the event, and with it the stream: no line after it is read. */
  lemma DoneLineStops(m: BhMessage, before: seq<string>, line: string, after: seq<string>, parse: string -> Option<Json>)
    requires StartsWith(line, DataPrefix) && Trim(line[5..]) == Done
    ensures Pieces(m, before + [line] + after, LineHandler(parse)) == Pieces(m, before + [line], LineHandler(parse))
    ensures Pieces(m, before + [line], LineHandler(parse)).1
  {
    PiecesStopAt(m, before, line, after, LineHandler(parse));
  }

  /** When every payload parses, `handleChunk` receives them all and the text never
      changes: the structured stream of the server shows nothing. */
  lemma ParsedPayloadsIgnored(m0: BhMessage, chunks: seq<string>, parse: string -> Option<Json>)
    requires forall t :: parse(t).Some?
    ensures Stream(m0, "", chunks, EventSeparator, EventHandler(parse)).m.text == m0.text
  {
    var inv := (x: BhMessage) => x.text == m0.text;
    forall x, part | inv(x) ensures inv(EventHandler(parse)(x, part).0) {
      PiecesPreserve(x, Split(part, "\n"), LineHandler(parse), inv);
    }
    StreamPreserve(m0, "", chunks, EventSeparator, EventHandler(parse), inv);
  }

  /** Only `[DONE]` clears `isPartial`: a stream that drains without it leaves the flag as
      it was. */
  lemma DrainedKeepsPartial(m0: BhMessage, chunks: seq<string>, parse: string -> Option<Json>)
    ensures var e := Stream(m0, "", chunks, EventSeparator, EventHandler(parse));
      e.Drained? ==> e.m.isPartial == m0.isPartial
  {
    var inv := (x: BhMessage) => x.isPartial == m0.isPartial;
    forall x, part | inv(x) && !EventHandler(parse)(x, part).1 ensures inv(EventHandler(parse)(x, part).0) {
      PiecesPreserveUnlessStopped(x, Split(part, "\n"), LineHandler(parse), inv);
    }
    StreamPreserveUnlessStopped(m0, "", chunks, EventSeparator, EventHandler(parse), inv);
  }

  /** The events of a stream keep the message's id, role and lists. */
  lemma EventsKeepIdentity(m0: BhMessage, chunks: seq<string>, parse: string -> Option<Json>)
    ensures var m := Stream(m0, "", chunks, EventSeparator, EventHandler(parse)).m;
      m.id == m0.id && m.role == m0.role && m.citations == m0.citations && m.sourceDocuments == m0.sourceDocuments
  {
    var inv := (x: BhMessage) => x.id == m0.id && x.role == m0.role && x.citations == m0.citations && x.sourceDocuments == m0.sourceDocuments;
    forall x, part | inv(x) ensures inv(EventHandler(parse)(x, part).0) {
      PiecesPreserve(x, Split(part, "\n"), LineHandler(parse), inv);
    }
    StreamPreserve(m0, "", chunks, EventSeparator, EventHandler(parse), inv);
  }

  /** One event, line by line. */
  method HandleEventLines(m0: BhMessage, part: string, parse: string -> Option<Json>) returns (m: BhMessage, stop: bool)
    ensures (m, stop) == HandleEvent(m0, part, parse)
  {
    var lines := Split(part, "\n");
    m := m0;
    var k := 0;
    while k < |lines|
      invariant 0 <= k <= |lines|
      invariant HandleEvent(m0, part, parse) == Pieces(m, lines[k..], LineHandler(parse))
    {
      assert lines[k..][0] == lines[k] && lines[k..][1..] == lines[k + 1..];
      var (m1, s1) := HandleLine(m, lines[k], parse);
      if s1 {
        return m1, true;
      }
      m := m1;
      k := k + 1;
    }
    return m, false;
  }

  /** The event-stream read loop: every read is appended to `buf`, split on "\n\n", each
      complete event handled, the last piece kept; `[DONE]` returns at once. */
  method ReadEvents(m0: BhMessage, chunks: seq<string>, parse: string -> Option<Json>) returns (end: End<BhMessage>)
    ensures end == Stream(m0, "", chunks, EventSeparator, EventHandler(parse))
  {
    ghost var handle := EventHandler(parse);
    var m := m0;
    var buf := "";
    var i := 0;
    while i < |chunks|
      invariant 0 <= i <= |chunks|
      invariant Stream(m0, "", chunks, EventSeparator, handle) == Stream(m, buf, chunks[i..], EventSeparator, handle)
    {
      var parts := Split(buf + chunks[i], EventSeparator);
      var complete := parts[..|parts| - 1];
      StreamStep(m, buf, chunks, i, EventSeparator, handle, parts, Pieces(m, complete, handle));
      ghost var mi := m;
      var j := 0;
      while j < |complete|
        invariant 0 <= j <= |complete|
        invariant Pieces(mi, complete, handle) == Pieces(m, complete[j..], handle)
      {
        var m1, stop := HandleEventLines(m, complete[j], parse);
        PiecesStep(m, complete, j, handle, (m1, stop));
        if stop {
          return Stopped(m1);
        }
        m := m1;
        j := j + 1;
      }
      buf := parts[|parts| - 1];
      i := i + 1;
    }
    return Drained(m, buf);
  }

  // ---------------------------------------------------------------------------
  // newline-delimited JSON

  const JsonType: string := "application/json"

  /** One complete line: trimmed; blank lines are skipped, lines that parse go to
      `handleChunk` (nothing), others are appended trimmed. */
  function LineStep(m: BhMessage, line: string, parse: string -> Option<Json>): BhMessage {
    var t := Trim(line);
    if t == "" || parse(t).Some? then m else AppendText(m, t)
  }

  /** The complete lines, in order. */
  function Lines(m: BhMessage, lines: seq<string>, parse: string -> Option<Json>): (r: BhMessage)
    ensures r.id == m.id && r.role == m.role && r.isPartial == m.isPartial
    ensures r.citations == m.citations && r.sourceDocuments == m.sourceDocuments
    decreases |lines|
  {
    if |lines| == 0 then m else Lines(LineStep(m, lines[0], parse), lines[1..], parse)
  }

  /** The lines whose trimmed text reaches the screen: not blank, and not parsable. */
  function ShownLines(lines: seq<string>, parse: string -> Option<Json>): seq<string> {
    if |lines| == 0 then []
    else
      var t := Trim(lines[0]);
      (if t == "" || parse(t).Some? then [] else [t]) + ShownLines(lines[1..], parse)
  }

  /** The complete lines append exactly the shown lines, in order. */
  lemma {:induction false} LinesAppendShown(m: BhMessage, lines: seq<string>, parse: string -> Option<Json>)
    ensures Lines(m, lines, parse) == AppendText(m, Flatten(ShownLines(lines, parse)))
    decreases |lines|
  {
    if |lines| > 0 {
      var t := Trim(lines[0]);
      var head := if t == "" || parse(t).Some? then [] else [t];
      LinesAppendShown(LineStep(m, lines[0], parse), lines[1..], parse);
      FlattenConcat(head, ShownLines(lines[1..], parse));
      assert Flatten(head) == if head == [] then "" else t;
    }
  }

  /** A read that is shown as it arrives: the content type is not JSON and the read holds
      no newline. */
  predicate Direct(contentType: string, chunk: string) {
    !Contains(contentType, JsonType) && !Contains(chunk, "\n")
  }

  /** One read as the source has it: appended to the buffer, which is split on "\n"; the
      complete lines are handled and the last piece kept; a direct read is also appended to
      the text — while staying in the buffer. */
  function AsWrittenStep(m: BhMessage, buffer: string, chunk: string, contentType: string,
                         parse: string -> Option<Json>): (BhMessage, string) {
    var lines := Split(buffer + chunk, "\n");
    var m1 := Lines(m, lines[..|lines| - 1], parse);
    (if Direct(contentType, chunk) then AppendText(m1, chunk) else m1, lines[|lines| - 1])
  }

  /** One read as intended: a direct read is shown once and not buffered; any other read
      is buffered and split as in the source. */
  function Step(m: BhMessage, buffer: string, chunk: string, contentType: string,
                parse: string -> Option<Json>): (r: (BhMessage, string))
    ensures r.0.id == m.id && r.0.role == m.role && r.0.isPartial == m.isPartial
    ensures r.0.citations == m.citations && r.0.sourceDocuments == m.sourceDocuments
  {
    if Direct(contentType, chunk) then (AppendText(m, chunk), buffer)
    else
      var lines := Split(buffer + chunk, "\n");
      (Lines(m, lines[..|lines| - 1], parse), lines[|lines| - 1])
  }

  function AsWrittenReads(m: BhMessage, buffer: string, received: seq<string>, contentType: string,
                          parse: string -> Option<Json>): (BhMessage, string)
    decreases |received|
  {
    if |received| == 0 then (m, buffer)
    else
      var (m1, b1) := AsWrittenStep(m, buffer, received[0], contentType, parse);
      AsWrittenReads(m1, b1, received[1..], contentType, parse)
  }

  function Reads(m: BhMessage, buffer: string, received: seq<string>, contentType: string,
                 parse: string -> Option<Json>): (r: (BhMessage, string))
    ensures r.0.id == m.id && r.0.role == m.role && r.0.isPartial == m.isPartial
    ensures r.0.citations == m.citations && r.0.sourceDocuments == m.sourceDocuments
    decreases |received|
  {
    if |received| == 0 then (m, buffer)
    else
      var (m1, b1) := Step(m, buffer, received[0], contentType, parse);
      Reads(m1, b1, received[1..], contentType, parse)
  }

  /** The buffer left after the last read: a non-blank one that parses goes to
      `handleChunk`; otherwise it is appended untrimmed. */
  function Leftover(m: BhMessage, buffer: string, parse: string -> Option<Json>): (r: BhMessage)
    ensures r.id == m.id && r.role == m.role && r.isPartial == m.isPartial
    ensures r.citations == m.citations && r.sourceDocuments == m.sourceDocuments
  {
    if Trim(buffer) == "" || parse(buffer).Some? then m else AppendText(m, buffer)
  }

  /** The whole newline-delimited reader as written: the received, then the final empty read
      that reports `done`, then the leftover. */
  function AsWrittenNdjson(m: BhMessage, chunks: seq<string>, contentType: string, parse: string -> Option<Json>): BhMessage {
    var (m1, buffer) := AsWrittenReads(m, "", chunks + [""], contentType, parse);
    Leftover(m1, buffer, parse).(isPartial := Some(false))
  }

  /** The same reader with each direct read shown once. */
  function Ndjson(m: BhMessage, chunks: seq<string>, contentType: string, parse: string -> Option<Json>): (r: BhMessage)
    ensures r.id == m.id && r.role == m.role && r.isPartial == Some(false)
    ensures r.citations == m.citations && r.sourceDocuments == m.sourceDocuments
  {
    var (m1, buffer) := Reads(m, "", chunks + [""], contentType, parse);
    Leftover(m1, buffer, parse).(isPartial := Some(false))
  }

  /** No read holds a line break. */
  predicate NoNewlines(rs: seq<string>) {
    |rs| == 0 || (!Contains(rs[0], "\n") && NoNewlines(rs[1..]))
  }

  /** A text without "\n" is a single line. */
  lemma OneLine(s: string)
    requires !Contains(s, "\n")
    ensures Split(s, "\n") == [s]
  {
    ContainsIffIndexOf(s, "\n");
    SplitNone(s, "\n");
  }

  lemma NoNewlineAppend(a: string, b: string)
    requires !Contains(a, "\n") && !Contains(b, "\n")
    ensures !Contains(a + b, "\n")
  {
    if Contains(a + b, "\n") {
      var i :| 0 <= i <= |a + b| && OccursAt(a + b, "\n", i);
      if i < |a| {
        assert OccursAt(a, "\n", i);
      } else {
        assert OccursAt(b, "\n", i - |a|);
      }
    }
  }

  /** Plain-text received that never hold a newline, under a content type that is not JSON,
      as written: every read is shown as it arrives and also kept in the buffer. */
  lemma {:induction false} AsWrittenPlainReads(m: BhMessage, buffer: string, received: seq<string>,
                                               contentType: string, parse: string -> Option<Json>)
    requires !Contains(contentType, JsonType) && !Contains(buffer, "\n")
    requires NoNewlines(received)
    ensures AsWrittenReads(m, buffer, received, contentType, parse) == (AppendText(m, Flatten(received)), buffer + Flatten(received))
    decreases |received|
  {
    if |received| == 0 {
      AppendEmpty(m);
      assert buffer + Flatten(received) == buffer;
    } else {
      NoNewlineAppend(buffer, received[0]);
      OneLine(buffer + received[0]);
      var lines := Split(buffer + received[0], "\n");
      assert lines[..|lines| - 1] == [];
      assert AsWrittenStep(m, buffer, received[0], contentType, parse) == (AppendText(m, received[0]), buffer + received[0]);
      AsWrittenPlainReads(AppendText(m, received[0]), buffer + received[0], received[1..], contentType, parse);
      assert buffer + received[0] + Flatten(received[1..]) == buffer + Flatten(received);
      AppendTextTwice(m, received[0], Flatten(received[1..]));
    }
  }

  /** The same received as intended: each is shown once and the buffer stays as it was. */
  lemma {:induction false} PlainReads(m: BhMessage, buffer: string, received: seq<string>,
                                      contentType: string, parse: string -> Option<Json>)
    requires !Contains(contentType, JsonType)
    requires NoNewlines(received)
    ensures Reads(m, buffer, received, contentType, parse) == (AppendText(m, Flatten(received)), buffer)
    decreases |received|
  {
    if |received| == 0 {
      AppendEmpty(m);
    } else {
      PlainReads(AppendText(m, received[0]), buffer, received[1..], contentType, parse);
      AppendTextTwice(m, received[0], Flatten(received[1..]));
    }
  }

  lemma NoNewlineInEmpty()
    ensures !Contains("", "\n")
  {
    ContainsIffIndexOf("", "\n");
  }

  lemma FlattenLastEmpty(chunks: seq<string>)
    ensures Flatten(chunks + [""]) == Flatten(chunks)
  {
    FlattenAppend(chunks, "");
  }

  /** The reads plus the final empty read, when none holds a newline. */
  lemma {:induction false} PlainWithFinal(chunks: seq<string>)
    requires NoNewlines(chunks)
    ensures NoNewlines(chunks + [""])
    ensures Flatten(chunks + [""]) == Flatten(chunks)
    decreases |chunks|
  {
    NoNewlineInEmpty();
    FlattenLastEmpty(chunks);
    if |chunks| == 0 {
      assert NoNewlines([""][1..]);
    } else {
      PlainWithFinal(chunks[1..]);
      assert (chunks + [""])[1..] == chunks[1..] + [""];
    }
  }

  /** As written, a plain-text stream (no newline in any read) whose text does not parse
      appears twice: once read by read, then again as the leftover buffer. */
  lemma AsWrittenShowsTwice(m: BhMessage, chunks: seq<string>, contentType: string, parse: string -> Option<Json>)
    requires !Contains(contentType, JsonType)
    requires NoNewlines(chunks)
    requires Trim(Flatten(chunks)) != "" && parse(Flatten(chunks)).None?
    ensures AsWrittenNdjson(m, chunks, contentType, parse).text == m.text + Flatten(chunks) + Flatten(chunks)
  {
    var f := Flatten(chunks);
    var all := chunks + [""];
    PlainWithFinal(chunks);
    NoNewlineInEmpty();
    AsWrittenPlainReads(m, "", all, contentType, parse);
    assert "" + Flatten(all) == f;
    AsWrittenNdjsonOf(m, chunks, contentType, parse, AppendText(m, f), f);
    AppendTextTwice(m, f, f);
  }

  lemma AsWrittenNdjsonOf(m: BhMessage, chunks: seq<string>, contentType: string, parse: string -> Option<Json>,
                          m1: BhMessage, buffer: string)
    requires AsWrittenReads(m, "", chunks + [""], contentType, parse) == (m1, buffer)
    ensures AsWrittenNdjson(m, chunks, contentType, parse) == Leftover(m1, buffer, parse).(isPartial := Some(false))
  {
  }

  /** No line break in a text whose characters are none. */
  lemma NoNewline(s: string)
    requires forall i :: 0 <= i < |s| ==> s[i] != '\n'
    ensures !Contains(s, "\n")
  {
    forall i | 0 <= i <= |s| ensures !OccursAt(s, "\n", i) {
      if i + 1 <= |s| {
        assert s[i..i + 1][0] == s[i];
      }
    }
  }

  /** The concrete case: one read "hello" under `text/plain` ends as "hellohello". */
  lemma AsWrittenHelloTwice(m: BhMessage, parse: string -> Option<Json>)
    requires m.text == "" && parse("hello").None?
    ensures AsWrittenNdjson(m, ["hello"], "text/plain", parse).text == "hellohello"
  {
    assert !Contains("text/plain", JsonType) by {
      assert |JsonType| > |"text/plain"|;
    }
    NoNewline("hello");
    assert Flatten(["hello"]) == "hello";
    TrimOfTrimmed("hello");
    AsWrittenShowsTwice(m, ["hello"], "text/plain", parse);
  }

  /** As intended, a plain-text stream appears exactly once, whatever it parses to. */
  lemma PlainTextShownOnce(m: BhMessage, chunks: seq<string>, contentType: string, parse: string -> Option<Json>)
    requires !Contains(contentType, JsonType)
    requires NoNewlines(chunks)
    ensures Ndjson(m, chunks, contentType, parse).text == m.text + Flatten(chunks)
  {
    PlainWithFinal(chunks);
    PlainReads(m, "", chunks + [""], contentType, parse);
    assert Trim("") == "";
  }

  /** A text with no line break, then one, splits into the text and "". */
  lemma SplitLineEnd(x: string)
    requires !Contains(x, "\n")
    ensures Split(x + "\n", "\n") == [x, ""]
  {
    var s := x + "\n";
    forall j | 0 <= j < |x| ensures !OccursAt(s, "\n", j) {
      if OccursAt(s, "\n", j) {
        assert x[j..j + 1] == s[j..j + 1];
        assert OccursAt(x, "\n", j);
      }
    }
    assert s[|x|..|x| + 1] == "\n";
    IndexOfIs(s, "\n", 0, |x|);
    SplitStep(s, "\n", |x|);
    assert s[..|x|] == x && s[|x| + 1..] == "";
    NoNewlineInEmpty();
    OneLine("");
  }

  /** Three reads, one step after another. */
  lemma ReadsOfThree(m: BhMessage, buffer: string, x: string, y: string, z: string,
                     contentType: string, parse: string -> Option<Json>)
    ensures var (m1, b1) := Step(m, buffer, x, contentType, parse);
      var (m2, b2) := Step(m1, b1, y, contentType, parse);
      Reads(m, buffer, [x, y, z], contentType, parse) == Step(m2, b2, z, contentType, parse)
  {
    var (m1, b1) := Step(m, buffer, x, contentType, parse);
    var (m2, b2) := Step(m1, b1, y, contentType, parse);
    var (m3, b3) := Step(m2, b2, z, contentType, parse);
    assert [x, y, z][1..] == [y, z] && [y, z][1..] == [z] && [z][1..] == [];
    assert Reads(m2, b2, [z], contentType, parse) == Reads(m3, b3, [], contentType, parse);
  }

  /** Three reads as written, one step after another. */
  lemma AsWrittenReadsOfThree(m: BhMessage, buffer: string, x: string, y: string, z: string,
                              contentType: string, parse: string -> Option<Json>)
    ensures var (m1, b1) := AsWrittenStep(m, buffer, x, contentType, parse);
      var (m2, b2) := AsWrittenStep(m1, b1, y, contentType, parse);
      AsWrittenReads(m, buffer, [x, y, z], contentType, parse) == AsWrittenStep(m2, b2, z, contentType, parse)
  {
    var (m1, b1) := AsWrittenStep(m, buffer, x, contentType, parse);
    var (m2, b2) := AsWrittenStep(m1, b1, y, contentType, parse);
    var (m3, b3) := AsWrittenStep(m2, b2, z, contentType, parse);
    assert [x, y, z][1..] == [y, z] && [y, z][1..] == [z] && [z][1..] == [];
    assert AsWrittenReads(m2, b2, [z], contentType, parse) == AsWrittenReads(m3, b3, [], contentType, parse);
  }

  /** As written, a read with no line break onto a buffer with none is shown and buffered. */
  lemma AsWrittenDirectStep(m: BhMessage, buffer: string, chunk: string, contentType: string,
                            parse: string -> Option<Json>)
    requires !Contains(contentType, JsonType) && !Contains(buffer, "\n") && !Contains(chunk, "\n")
    ensures AsWrittenStep(m, buffer, chunk, contentType, parse) == (AppendText(m, chunk), buffer + chunk)
  {
    NoNewlineAppend(buffer, chunk);
    OneLine(buffer + chunk);
  }

  /** As written, the read that completes the line `a + b` hands that whole line on. */
  lemma AsWrittenLineCompleted(m: BhMessage, a: string, b: string, contentType: string, parse: string -> Option<Json>)
    requires !Contains(a, "\n") && !Contains(b, "\n")
    ensures AsWrittenStep(m, a, b + "\n", contentType, parse) == (LineStep(m, a + b, parse), "")
  {
    NoNewlineAppend(a, b);
    SplitLineEnd(a + b);
    assert a + (b + "\n") == (a + b) + "\n";
    var lines := Split(a + (b + "\n"), "\n");
    assert lines[..|lines| - 1] == [a + b] && lines[|lines| - 1] == "";
    assert Lines(m, [a + b], parse) == Lines(LineStep(m, a + b, parse), [], parse);
    assert !Direct(contentType, b + "\n") by {
      assert OccursAt(b + "\n", "\n", |b|);
    }
  }

  /** As intended, the read that completes a line onto an empty buffer hands on its own part. */
  lemma LineCompleted(m: BhMessage, b: string, contentType: string, parse: string -> Option<Json>)
    requires !Contains(b, "\n")
    ensures Step(m, "", b + "\n", contentType, parse) == (LineStep(m, b, parse), "")
  {
    SplitLineEnd(b);
    assert "" + (b + "\n") == b + "\n";
    var lines := Split(b + "\n", "\n");
    assert lines[..|lines| - 1] == [b] && lines[|lines| - 1] == "";
    assert Lines(m, [b], parse) == Lines(LineStep(m, b, parse), [], parse);
    assert !Direct(contentType, b + "\n") by {
      assert OccursAt(b + "\n", "\n", |b|);
    }
  }

  /** As written, a line whose first part `a` came in a read with no line break (under a
      content type that is not JSON) shows `a` as it arrives, and the completed line
      `a + b` is handled whole: when it parses, nothing more is shown. */
  lemma AsWrittenSplitLine(m: BhMessage, a: string, b: string, contentType: string, parse: string -> Option<Json>)
    requires !Contains(contentType, JsonType) && !Contains(a, "\n") && !Contains(b, "\n")
    requires parse(Trim(a + b)).Some?
    ensures AsWrittenNdjson(m, [a, b + "\n"], contentType, parse).text == m.text + a
  {
    NoNewlineInEmpty();
    var m1 := AppendText(m, a);
    AsWrittenDirectStep(m, "", a, contentType, parse);
    assert "" + a == a;
    AsWrittenLineCompleted(m1, a, b, contentType, parse);
    assert LineStep(m1, a + b, parse) == m1;
    AsWrittenDirectStep(m1, "", "", contentType, parse);
    AppendEmpty(m1);
    assert [a, b + "\n"] + [""] == [a, b + "\n", ""];
    AsWrittenReadsOfThree(m, "", a, b + "\n", "", contentType, parse);
    assert Trim("") == "";
  }

  /** As intended, the part `a` is shown once and not buffered, so the completed line is
      `b` alone: when `b` is not blank and does not parse, it is shown after `a`. */
  lemma SplitLineIntended(m: BhMessage, a: string, b: string, contentType: string, parse: string -> Option<Json>)
    requires !Contains(contentType, JsonType) && !Contains(a, "\n") && !Contains(b, "\n")
    requires Trim(b) != "" && parse(Trim(b)).None?
    ensures Ndjson(m, [a, b + "\n"], contentType, parse).text == m.text + a + Trim(b)
  {
    NoNewlineInEmpty();
    var m1 := AppendText(m, a);
    LineCompleted(m1, b, contentType, parse);
    var m2 := AppendText(m1, Trim(b));
    assert LineStep(m1, b, parse) == m2;
    AppendEmpty(m2);
    assert [a, b + "\n"] + [""] == [a, b + "\n", ""];
    ReadsOfThree(m, "", a, b + "\n", "", contentType, parse);
    assert Trim("") == "";
  }

  /** The concrete case: reads "p" then "q\n" under `text/plain`, where only "pq" parses,
      show "p" as written and "pq" as intended. */
  lemma SplitLineDiffers(m: BhMessage, parse: string -> Option<Json>)
    requires parse("pq").Some? && parse("q").None?
    ensures AsWrittenNdjson(m, ["p", "q\n"], "text/plain", parse).text == m.text + "p"
    ensures Ndjson(m, ["p", "q\n"], "text/plain", parse).text == m.text + "pq"
  {
    assert !Contains("text/plain", JsonType) by {
      assert |JsonType| > |"text/plain"|;
    }
    NoNewline("p");
    NoNewline("q");
    assert "p" + "q" == "pq";
    TrimOfTrimmed("pq");
    TrimOfTrimmed("q");
    assert "q" + "\n" == "q\n" by {
      assert |"q" + "\n"| == 2 && ("q" + "\n")[0] == 'q' && ("q" + "\n")[1] == '\n';
    }
    AsWrittenSplitLine(m, "p", "q", "text/plain", parse);
    SplitLineIntended(m, "p", "q", "text/plain", parse);
  }

  /** Where no read is shown directly, the intended reads are the reads as written. */
  lemma {:induction false} ReadsAsWrittenUnlessDirect(m: BhMessage, buffer: string, received: seq<string>,
                                                      contentType: string, parse: string -> Option<Json>)
    requires forall i :: 0 <= i < |received| ==> !Direct(contentType, received[i])
    ensures Reads(m, buffer, received, contentType, parse) == AsWrittenReads(m, buffer, received, contentType, parse)
    decreases |received|
  {
    if |received| > 0 {
      var (m1, b1) := Step(m, buffer, received[0], contentType, parse);
      assert (m1, b1) == AsWrittenStep(m, buffer, received[0], contentType, parse);
      ReadsAsWrittenUnlessDirect(m1, b1, received[1..], contentType, parse);
    }
  }

  /** Under a JSON content type the intended reader is the reader as written. */
  lemma JsonTypeAsWritten(m: BhMessage, chunks: seq<string>, contentType: string, parse: string -> Option<Json>)
    requires Contains(contentType, JsonType)
    ensures Ndjson(m, chunks, contentType, parse) == AsWrittenNdjson(m, chunks, contentType, parse)
  {
    ReadsAsWrittenUnlessDirect(m, "", chunks + [""], contentType, parse);
  }

  lemma {:induction false} LinesAppend(m: BhMessage, a: seq<string>, b: seq<string>, parse: string -> Option<Json>)
    ensures Lines(m, a + b, parse) == Lines(Lines(m, a, parse), b, parse)
    decreases |a|
  {
    if |a| == 0 {
      assert a + b == b;
    } else {
      assert (a + b)[0] == a[0] && (a + b)[1..] == a[1..] + b;
      LinesAppend(LineStep(m, a[0], parse), a[1..], b, parse);
    }
  }

  /** Under a JSON content type no read is shown directly: the reads handle the complete
      lines of the whole text received, however it was cut, and carry its last line. */
  lemma {:induction false} JsonTypeReads(m: BhMessage, buffer: string, received: seq<string>,
                                         contentType: string, parse: string -> Option<Json>, lines: seq<string>)
    requires Contains(contentType, JsonType) && !Contains(buffer, "\n")
    requires lines == Split(buffer + Flatten(received), "\n")
    ensures Reads(m, buffer, received, contentType, parse) == (Lines(m, lines[..|lines| - 1], parse), lines[|lines| - 1])
    decreases |received|
  {
    if |received| == 0 {
      assert buffer + Flatten(received) == buffer;
      OneLine(buffer);
    } else {
      var x := buffer + received[0];
      var parts := Split(x, "\n");
      var rest := parts[|parts| - 1];
      SplitPiecesFree(x, "\n");
      var m1 := Lines(m, parts[..|parts| - 1], parse);
      JsonTypeStep(m, buffer, received, contentType, parse, parts);
      var tail := Split(rest + Flatten(received[1..]), "\n");
      JsonTypeReads(m1, rest, received[1..], contentType, parse, tail);
      assert x + Flatten(received[1..]) == buffer + Flatten(received);
      LinesOfAppend(x, Flatten(received[1..]), parts, tail);
      LinesAppend(m, parts[..|parts| - 1], tail[..|tail| - 1], parse);
    }
  }

  lemma JsonTypeStep(m: BhMessage, buffer: string, received: seq<string>, contentType: string,
                     parse: string -> Option<Json>, parts: seq<string>)
    requires Contains(contentType, JsonType) && |received| > 0
    requires parts == Split(buffer + received[0], "\n")
    ensures Reads(m, buffer, received, contentType, parse)
      == Reads(Lines(m, parts[..|parts| - 1], parse), parts[|parts| - 1], received[1..], contentType, parse)
  {
    assert !Direct(contentType, received[0]);
  }

  /** The complete lines of `x + y` are those of `x`, then those of its last line followed
      by `y`. */
  lemma LinesOfAppend(x: string, y: string, px: seq<string>, tail: seq<string>)
    requires px == Split(x, "\n") && tail == Split(px[|px| - 1] + y, "\n")
    ensures var lines := Split(x + y, "\n");
      lines[..|lines| - 1] == px[..|px| - 1] + tail[..|tail| - 1] && lines[|lines| - 1] == tail[|tail| - 1]
  {
    SplitAppend(x, y, "\n");
  }

  /** Under a JSON content type the reader shows the non-blank, unparsable complete lines
      of the whole body, trimmed and in order, then an unparsable last line; so it does not
      matter how the body was cut into received. */
  lemma JsonTypeWhole(m: BhMessage, chunks: seq<string>, contentType: string, parse: string -> Option<Json>)
    requires Contains(contentType, JsonType)
    ensures var lines := Split(Flatten(chunks), "\n");
      Ndjson(m, chunks, contentType, parse)
        == Leftover(AppendText(m, Flatten(ShownLines(lines[..|lines| - 1], parse))), lines[|lines| - 1], parse).(isPartial := Some(false))
  {
    NoNewlineInEmpty();
    FlattenLastEmpty(chunks);
    assert "" + Flatten(chunks + [""]) == Flatten(chunks);
    var lines := Split(Flatten(chunks), "\n");
    JsonTypeReads(m, "", chunks + [""], contentType, parse, lines);
    LinesAppendShown(m, lines[..|lines| - 1], parse);
  }

  /** The newline-delimited read loop, each direct read shown once. */
  method ReadLines(m0: BhMessage, received: seq<string>, contentType: string, parse: string -> Option<Json>)
    returns (m: BhMessage, buffer: string)
    ensures (m, buffer) == Reads(m0, "", received, contentType, parse)
  {
    m, buffer := m0, "";
    var i := 0;
    while i < |received|
      invariant 0 <= i <= |received|
      invariant Reads(m0, "", received, contentType, parse) == Reads(m, buffer, received[i..], contentType, parse)
    {
      assert received[i..][0] == received[i] && received[i..][1..] == received[i + 1..];
      var chunk := received[i];
      if !Contains(contentType, JsonType) && !Contains(chunk, "\n") {
        m := AppendText(m, chunk);
      } else {
        var lines := Split(buffer + chunk, "\n");
        ghost var mi := m;
        var j := 0;
        while j < |lines| - 1
          invariant 0 <= j <= |lines| - 1
          invariant Lines(mi, lines[..|lines| - 1], parse) == Lines(m, lines[j..|lines| - 1], parse)
        {
          assert lines[j..|lines| - 1][0] == lines[j] && lines[j..|lines| - 1][1..] == lines[j + 1..|lines| - 1];
          m := LineStep(m, lines[j], parse);
          j := j + 1;
        }
        buffer := lines[|lines| - 1];
      }
      i := i + 1;
    }
  }

  // ---------------------------------------------------------------------------
  // the reply

  const AbortError: string := "AbortError"
  const StreamErrorPrefix: string := "Stream error: "

  /** The `catch`: an abort keeps the text and clears `isPartial`; any other error replaces
      the text with "Stream error: " and the message (`undefined` when it has none). */
  function Caught(m: BhMessage, e: ClientError): (r: BhMessage)
    ensures r.id == m.id && r.role == m.role && r.citations == m.citations && r.sourceDocuments == m.sourceDocuments
    ensures r.isPartial == Some(false)
  {
    if e.name == AbortError then m.(isPartial := Some(false))
    else m.(text := StreamErrorPrefix + (if e.message.Some? then e.message.value else "undefined"), isPartial := Some(false))
  }

  /** An abort is the only error that keeps what was already shown; any other error shows
      only the error. */
  lemma CaughtText(m: BhMessage, e: ClientError)
    ensures e.name == AbortError ==> Caught(m, e).text == m.text
    ensures e.name != AbortError ==> StartsWith(Caught(m, e).text, StreamErrorPrefix)
  {
    if e.name != AbortError {
      var t := Caught(m, e).text;
      assert t[..|StreamErrorPrefix|] == StreamErrorPrefix;
    }
  }

  /** The agent message once `sendMessage` has finished with a reply, and whether
      `streamingRef` is still set: an error status shows `Error: <status> <statusText> -
      <body>`; an event stream ends at `[DONE]` or, draining, leaves the message and the
      flag as they were; any other body is read as newline-delimited JSON. The flag stays
      set exactly when the message is left partial. */
  function Receive(m0: BhMessage, reply: Reply, parse: string -> Option<Json>): (r: (BhMessage, bool))
    requires m0.isPartial == Some(true)
    ensures r.0.id == m0.id && r.0.role == m0.role && r.0.citations == m0.citations && r.0.sourceDocuments == m0.sourceDocuments
    ensures r.1 <==> r.0.isPartial == Some(true)
    ensures r.0.isPartial.Some?
  {
    match reply
    case NotOk(status, statusText, body) =>
      (m0.(text := "Error: " + NatToString(status) + " " + statusText + " - " + body, isPartial := Some(false)), false)
    case Body(contentType, chunks, failure) =>
      if Contains(contentType, EventStream) then
        EventsKeepIdentity(m0, chunks, parse);
        DrainedKeepsPartial(m0, chunks, parse);
        StoppedIsFinal(m0, chunks, parse);
        match Stream(m0, "", chunks, EventSeparator, EventHandler(parse))
        case Stopped(m) => (m, false)
        case Drained(m, _) => if failure.Some? then (Caught(m, failure.value), false) else (m, true)
      else if failure.Some? then (Caught(Reads(m0, "", chunks, contentType, parse).0, failure.value), false)
      else (Ndjson(m0, chunks, contentType, parse), false)
  }

  /** An event stream that stopped stopped at `[DONE]`, which cleared `isPartial`. */
  lemma StoppedIsFinal(m0: BhMessage, chunks: seq<string>, parse: string -> Option<Json>)
    ensures var e := Stream(m0, "", chunks, EventSeparator, EventHandler(parse));
      e.Stopped? ==> e.m.isPartial == Some(false)
  {
    var post := (x: BhMessage) => x.isPartial == Some(false);
    forall x, part | EventHandler(parse)(x, part).1 ensures post(EventHandler(parse)(x, part).0) {
      PiecesStopWith(x, Split(part, "\n"), LineHandler(parse), post);
    }
    StreamStopWith(m0, "", chunks, EventSeparator, EventHandler(parse), post);
  }

  /** Over an event stream, the message depends only on the text received, not on how it
      was cut into reads. */
  lemma EventChunkingIrrelevant(m0: BhMessage, contentType: string, chunks1: seq<string>, chunks2: seq<string>,
                                failure: Option<ClientError>, parse: string -> Option<Json>)
    requires m0.isPartial == Some(true) && Contains(contentType, EventStream)
    requires Flatten(chunks1) == Flatten(chunks2)
    ensures Receive(m0, Body(contentType, chunks1, failure), parse) == Receive(m0, Body(contentType, chunks2, failure), parse)
  {
    assert !Contains("", EventSeparator) by { ContainsIffIndexOf("", EventSeparator); }
    StreamIsWhole(m0, "", chunks1, EventSeparator, EventHandler(parse));
    StreamIsWhole(m0, "", chunks2, EventSeparator, EventHandler(parse));
  }

  /** The body of `sendMessage` from `fetch` on. */
  method ReceiveMessage(m0: BhMessage, reply: Reply, parse: string -> Option<Json>) returns (m: BhMessage, streaming: bool)
    requires m0.isPartial == Some(true)
    ensures (m, streaming) == Receive(m0, reply, parse)
  {
    match reply {
      case NotOk(status, statusText, body) =>
        return m0.(text := "Error: " + NatToString(status) + " " + statusText + " - " + body, isPartial := Some(false)), false;
      case Body(contentType, chunks, failure) =>
        if Contains(contentType, EventStream) {
          var end := ReadEvents(m0, chunks, parse);
          match end {
            case Stopped(m1) => return m1, false;
            case Drained(m1, _) =>
              if failure.Some? {
                return Caught(m1, failure.value), false;
              }
              return m1, true;
          }
        }
        if failure.Some? {
          var m1, _ := ReadLines(m0, chunks, contentType, parse);
          return Caught(m1, failure.value), false;
        }
        var m1, buffer := ReadLines(m0, chunks + [""], contentType, parse);
        return Leftover(m1, buffer, parse).(isPartial := Some(false)), false;
    }
  }

  // ---------------------------------------------------------------------------
  // the hook's state

  const MemoryWindow: nat := 6

  /** The body `sendMessage` posts: the prompt and the memory, as role and text. */
  datatype Request = Request(prompt: string, memory: seq<(Role, string)>)

  /** The messages and `streamingRef`. */
  datatype BhState = BhState(messages: seq<BhMessage>, streaming: bool)

  function UserMessage(id: string, prompt: string): BhMessage {
    BhMessage(id, User, prompt, None, None, None)
  }

  /** The agent placeholder: empty, partial, with empty lists. */
  function Placeholder(id: string): BhMessage {
    BhMessage(id, Agent, "", Some(true), Some([]), Some([]))
  }

  /** Role and text of at most the last six messages. */
  function Memory(msgs: seq<BhMessage>): (r: seq<(Role, string)>)
    ensures |r| == if |msgs| < MemoryWindow then |msgs| else MemoryWindow
    ensures forall k :: 0 <= k < |r| ==> r[k] == (msgs[|msgs| - |r| + k].role, msgs[|msgs| - |r| + k].text)
  {
    var last := if |msgs| <= MemoryWindow then msgs else msgs[|msgs| - MemoryWindow..];
    seq(|last|, k requires 0 <= k < |last| => (last[k].role, last[k].text))
  }

  /** The patch that sets what the reply made of the placeholder. */
  function Final(m: BhMessage): Patch {
    Patch(Some(m.text), m.isPartial)
  }

  /** `sendMessage(prompt)` with the ids it draws, the reply and `JSON.parse`: the user
      message and the placeholder are pushed, the memory is taken from the messages before
      them, and the placeholder becomes what the reply makes of it. */
  function SendSpec(s: BhState, prompt: string, userId: string, agentId: string, reply: Reply,
                    parse: string -> Option<Json>): (BhState, Request)
  {
    var r := Receive(Placeholder(agentId), reply, parse);
    var msgs := s.messages + [UserMessage(userId, prompt), Placeholder(agentId)];
    (BhState(UpdateLast(msgs, agentId, Constant(Final(r.0))), r.1), Request(prompt, Memory(s.messages)))
  }

  /** A send appends exactly the user message and the agent's final message; the memory it
      posts is role and text of the last six messages before it; `streamingRef` stays set
      exactly when that final message is still partial. */
  lemma SendAppendsExchange(s: BhState, prompt: string, userId: string, agentId: string, reply: Reply,
                            parse: string -> Option<Json>)
    requires userId != agentId && forall m :: m in s.messages ==> m.id != agentId
    ensures var (r, req) := SendSpec(s, prompt, userId, agentId, reply, parse);
      var final := Receive(Placeholder(agentId), reply, parse).0;
      r.messages == s.messages + [UserMessage(userId, prompt), final]
      && req == Request(prompt, Memory(s.messages))
      && (r.streaming <==> final.isPartial == Some(true))
  {
    var final := Receive(Placeholder(agentId), reply, parse).0;
    var msgs := s.messages + [UserMessage(userId, prompt), Placeholder(agentId)];
    var u := UpdateLast(msgs, agentId, Constant(Final(final)));
    forall k | 0 <= k < |msgs| ensures u[k] == (s.messages + [UserMessage(userId, prompt), final])[k] {
      UpdateLastOnly(msgs, agentId, Constant(Final(final)), k);
      if k < |s.messages| {
        assert msgs[k] in s.messages;
      } else if k == |s.messages| + 1 {
        assert Merge(Placeholder(agentId), Final(final)) == final;
      }
    }
  }

  /** The bh-rag chat hook: the messages and the streaming flag. */
  class BhHook {
    var messages: seq<BhMessage>
    var streaming: bool

    function State(): BhState
      reads this
    {
      BhState(messages, streaming)
    }

    constructor()
      ensures State() == BhState([], false)
    {
      messages := [];
      streaming := false;
    }

    /** `pushMessage`. */
    method PushMessage(m: BhMessage)
      modifies this
      ensures State() == old(State()).(messages := old(messages) + [m])
    {
      messages := messages + [m];
    }

    /** `updateLast`. */
    method UpdateLastMessage(id: string, patch: BhMessage -> Patch)
      modifies this
      ensures State() == old(State()).(messages := UpdateLast(old(messages), id, patch))
    {
      messages := UpdateLast(messages, id, patch);
    }

    /** `sendMessage`; returns the request it posts. */
    method SendMessage(prompt: string, userId: string, agentId: string, reply: Reply,
                       parse: string -> Option<Json>) returns (request: Request)
      modifies this
      ensures (State(), request) == SendSpec(old(State()), prompt, userId, agentId, reply, parse)
    {
      var before := messages;
      PushMessage(UserMessage(userId, prompt));
      var agent := Placeholder(agentId);
      PushMessage(agent);
      request := Request(prompt, Memory(before));
      streaming := true;
      var final, still := ReceiveMessage(agent, reply, parse);
      assert messages == before + [UserMessage(userId, prompt), agent];
      UpdateLastMessage(agentId, Constant(Final(final)));
      streaming := still;
      assert State() == SendSpec(old(State()), prompt, userId, agentId, reply, parse).0;
    }
  }
}
