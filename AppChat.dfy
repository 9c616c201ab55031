/** The chat hook of the app's frontend (`app/frontend/src/hooks/useChatStreaming.ts`): a
    list of conversations, the single-message update, the reducer that folds the server's
    event stream into the agent's message, the citation links it builds, and the title,
    memory and restore rules. Browser storage, `fetch` and ids are inputs. */
module AppChat {
  import opened Options
  import opened Strings
  import opened Json
  import opened Years
  import opened Framing

  datatype Role = User | Agent

  /** A value, or the TypeError computing it throws. */
  datatype Outcome<T> = Ok(value: T) | Throws

  /** A message; an absent `isPartial` is `false`. */
  datatype ChatMessage = ChatMessage(
    id: string, role: Role, text: string, isPartial: bool,
    citations: seq<Json>, supportingEvidence: seq<Json>, contextualAnalysis: seq<Json>)

  datatype Conversation = Conversation(id: string, title: string, messages: seq<ChatMessage>)

  /** A `Partial<ChatMessageType>`: the fields it sets. */
  datatype Patch = Patch(
    text: Option<string>, isPartial: Option<bool>,
    citations: Option<seq<Json>>, supportingEvidence: Option<seq<Json>>, contextualAnalysis: Option<seq<Json>>)

  /** `{ ...m, ...patch }`. */
  function Merge(m: ChatMessage, p: Patch): (r: ChatMessage)
    ensures r.id == m.id && r.role == m.role
  {
    ChatMessage(m.id, m.role,
      if p.text.Some? then p.text.value else m.text,
      if p.isPartial.Some? then p.isPartial.value else m.isPartial,
      if p.citations.Some? then p.citations.value else m.citations,
      if p.supportingEvidence.Some? then p.supportingEvidence.value else m.supportingEvidence,
      if p.contextualAnalysis.Some? then p.contextualAnalysis.value else m.contextualAnalysis)
  }

  /** The patch that sets every field to those of `x`. */
  function Replace(x: ChatMessage): Patch {
    Patch(Some(x.text), Some(x.isPartial), Some(x.citations), Some(x.supportingEvidence), Some(x.contextualAnalysis))
  }

  /** Replacing by a message of the same id and role gives that message. */
  lemma MergeReplace(m: ChatMessage, x: ChatMessage)
    requires x.id == m.id && x.role == m.role
    ensures Merge(m, Replace(x)) == x
  {
  }

  // ---------------------------------------------------------------------------
  // updateMessage

  function UpdateIn(c: Conversation, convId: string, msgId: string, patch: ChatMessage -> Patch): Conversation {
    if c.id != convId then c
    else c.(messages := seq(|c.messages|, j requires 0 <= j < |c.messages| =>
      if c.messages[j].id != msgId then c.messages[j] else Merge(c.messages[j], patch(c.messages[j]))))
  }

  /** `updateMessage(convId, msgId, patch)`: a constant patch is a function ignoring its
      argument. */
  function UpdateMessage(convs: seq<Conversation>, convId: string, msgId: string, patch: ChatMessage -> Patch): seq<Conversation> {
    seq(|convs|, i requires 0 <= i < |convs| => UpdateIn(convs[i], convId, msgId, patch))
  }

  /** Only message `msgId` of conversation `convId` changes, by merging its patch; every
      conversation keeps its id, title and place, and every message its id and place. */
  lemma UpdateMessageOnly(convs: seq<Conversation>, convId: string, msgId: string, patch: ChatMessage -> Patch, i: int, j: int)
    requires 0 <= i < |convs|
    ensures var r := UpdateMessage(convs, convId, msgId, patch);
      |r| == |convs| && r[i].id == convs[i].id && r[i].title == convs[i].title
      && |r[i].messages| == |convs[i].messages|
      && (convs[i].id != convId ==> r[i] == convs[i])
    ensures 0 <= j < |convs[i].messages| ==>
      var r := UpdateMessage(convs, convId, msgId, patch);
      var m := convs[i].messages[j];
      r[i].messages[j].id == m.id
      && r[i].messages[j] == if convs[i].id == convId && m.id == msgId then Merge(m, patch(m)) else m
  {
  }

  /** Two updates of the same message are one update by their composition: the stream's
      successive updates of the agent message amount to replacing it by their result. */
  lemma UpdateMessageCompose(convs: seq<Conversation>, convId: string, msgId: string,
                             f: ChatMessage -> Patch, g: ChatMessage -> Patch)
    ensures UpdateMessage(UpdateMessage(convs, convId, msgId, f), convId, msgId, g)
      == UpdateMessage(convs, convId, msgId, m => Replace(Merge(Merge(m, f(m)), g(Merge(m, f(m))))))
  {
    var a := UpdateMessage(UpdateMessage(convs, convId, msgId, f), convId, msgId, g);
    var b := UpdateMessage(convs, convId, msgId, m => Replace(Merge(Merge(m, f(m)), g(Merge(m, f(m))))));
    forall i | 0 <= i < |convs| ensures a[i] == b[i] {
      if convs[i].id == convId {
        forall j | 0 <= j < |convs[i].messages| ensures a[i].messages[j] == b[i].messages[j] {
          var m := convs[i].messages[j];
          if m.id == msgId {
            MergeReplace(m, Merge(Merge(m, f(m)), g(Merge(m, f(m)))));
          }
        }
      }
    }
  }

  // ---------------------------------------------------------------------------
  // the stream reducer

  const FrameSeparator: string := "\n\n"
  const DataPrefix: string := "data:"
  const Done: string := "[DONE]"

  /** The index of the first line starting with "data:", `|lines|` when there is none. */
  function FirstDataLine(lines: seq<string>): (k: nat)
    ensures k <= |lines|
    ensures k < |lines| ==> StartsWith(lines[k], DataPrefix)
    ensures forall j :: 0 <= j < k ==> !StartsWith(lines[j], DataPrefix)
  {
    if |lines| == 0 then 0
    else if StartsWith(lines[0], DataPrefix) then 0
    else 1 + FirstDataLine(lines[1..])
  }

  /** The payload of a frame: the first "data:" line after its five characters, trimmed;
      `None` when no line starts with "data:". */
  function FrameData(part: string): Option<string> {
    var lines := Split(part, "\n");
    var k := FirstDataLine(lines);
    if k < |lines| then Some(Trim(lines[k][5..])) else None
  }

  /** `Array.isArray(v) ? v : [v]`. */
  function AsList(v: Json): seq<Json> {
    if v.JArr? then v.items else [v]
  }

  /** `x` grows out of `m`: same id and role, and its text and lists start with `m`'s. */
  predicate Extends(x: ChatMessage, m: ChatMessage) {
    x.id == m.id && x.role == m.role && m.text <= x.text && m.citations <= x.citations
    && m.supportingEvidence <= x.supportingEvidence && m.contextualAnalysis <= x.contextualAnalysis
  }

  lemma ExtendsTrans(x: ChatMessage, y: ChatMessage, z: ChatMessage)
    requires Extends(y, x) && Extends(z, y)
    ensures Extends(z, x)
  {
    assert z.text[..|x.text|] == z.text[..|y.text|][..|x.text|];
    assert z.citations[..|x.citations|] == z.citations[..|y.citations|][..|x.citations|];
    assert z.supportingEvidence[..|x.supportingEvidence|] == z.supportingEvidence[..|y.supportingEvidence|][..|x.supportingEvidence|];
    assert z.contextualAnalysis[..|x.contextualAnalysis|] == z.contextualAnalysis[..|y.contextualAnalysis|][..|x.contextualAnalysis|];
  }

  lemma ListAppendPrefix<T>(a: seq<T>, b: seq<T>)
    ensures a <= a + b
  {
    assert (a + b)[..|a|] == a;
  }

  function AppendText(m: ChatMessage, t: string): (r: ChatMessage)
    ensures Extends(r, m)
  {
    ListAppendPrefix(m.text, t);
    m.(text := m.text + t)
  }

  /** A string field appends to `text` when it holds a string. */
  function AppendStringField(m: ChatMessage, p: Json, key: string): (r: ChatMessage)
    ensures Extends(r, m)
  {
    var v := Get(p, key);
    if v.Some? && v.value.JStr? then AppendText(m, v.value.s) else m
  }

  /** A truthy `supportingEvidence`, as a list, goes after the existing evidence. */
  function AddEvidence(m: ChatMessage, p: Json): (r: ChatMessage)
    ensures Extends(r, m)
  {
    var ev := Get(p, "supportingEvidence");
    if !TruthyOpt(ev) then m
    else
      ListAppendPrefix(m.supportingEvidence, AsList(ev.value));
      m.(supportingEvidence := m.supportingEvidence + AsList(ev.value))
  }

  /** A truthy `contextualAnalysis`, as a list, goes after the existing analysis. */
  function AddAnalysis(m: ChatMessage, p: Json): (r: ChatMessage)
    ensures Extends(r, m)
  {
    var ca := Get(p, "contextualAnalysis");
    if !TruthyOpt(ca) then m
    else
      ListAppendPrefix(m.contextualAnalysis, AsList(ca.value));
      m.(contextualAnalysis := m.contextualAnalysis + AsList(ca.value))
  }

  // the citation links

  const LetterDir: string := "/data/letter/"

  /** The link of a year: `/data/letter/<year>.pdf`, or the directory without one. */
  function LinkFor(year: Option<string>): string {
    if year.Some? then LetterDir + year.value + ".pdf" else LetterDir
  }

  /** The year a document names: in a string, or in an object's `title` (`doc.title || ""`);
      `None` for the value, `Some(None)` for no year; a `null` document, or a truthy title
      that is not a string, makes the lookup throw (`Throws`). */
  function DocYear(doc: Json): Outcome<Option<string>> {
    if doc.JStr? then Ok(FirstYearString(doc.s))
    else if doc.JNull? then Throws
    else if doc.JObj? || doc.JArr? then
      var title := Get(doc, "title");
      if !TruthyOpt(title) then Ok(None)
      else if title.value.JStr? then Ok(FirstYearString(title.value.s))
      else Throws
    else Ok(None)
  }

  /** The members `{ ...doc }` copies. */
  function Spread(doc: Json): seq<(string, Json)> {
    match doc
    case JObj(fields) => fields
    case JArr(items) => seq(|items|, i requires 0 <= i < |items| => (NatToString(i), items[i]))
    case _ => []
  }

  /** One enhanced document: `{title: doc, link}` for a string, `{ ...doc, link }` otherwise,
      with the year of the document or, failing that, of the prompt. */
  function EnhanceDoc(doc: Json, prompt: string): Outcome<Json> {
    match DocYear(doc)
    case Throws => Throws
    case Ok(year) =>
      var y := if year.Some? then year else FirstYearString(prompt);
      var link := JStr(LinkFor(y));
      if doc.JStr? then Ok(JObj([("title", doc), ("link", link)]))
      else Ok(JObj(Spread(doc) + [("link", link)]))
  }

  /** `docs.map(...)`: the first document that throws aborts the whole map. */
  function EnhanceDocs(docs: seq<Json>, prompt: string): (r: Outcome<seq<Json>>)
    ensures r.Ok? ==> |r.value| == |docs| && forall i :: 0 <= i < |docs| ==> EnhanceDoc(docs[i], prompt) == Ok(r.value[i])
    ensures r.Throws? <==> exists i :: 0 <= i < |docs| && EnhanceDoc(docs[i], prompt).Throws?
  {
    if |docs| == 0 then Ok([])
    else
      match EnhanceDoc(docs[0], prompt)
      case Throws => Throws
      case Ok(d) =>
        match EnhanceDocs(docs[1..], prompt)
        case Throws => Throws
        case Ok(ds) => Ok([d] + ds)
  }

  /** A truthy `sourceDocumentation`, as a list of enhanced documents, goes after the
      existing citations; a document that throws lands in the `catch`, which appends the
      raw data instead. */
  function AddCitations(m: ChatMessage, p: Json, data: string, prompt: string): (r: ChatMessage)
    ensures Extends(r, m)
  {
    var sd := Get(p, "sourceDocumentation");
    if !TruthyOpt(sd) then m
    else
      match EnhanceDocs(AsList(sd.value), prompt)
      case Throws => AppendText(m, data)
      case Ok(docs) =>
        ListAppendPrefix(m.citations, docs);
        m.(citations := m.citations + docs)
  }

  /** A parsed payload applied to the agent message, field by field, each step on the
      result of the one before; reading a field of `null` lands in the `catch` at once.
      Whatever the payload, the message only grows. */
  function ApplyParsed(m: ChatMessage, p: Json, data: string, prompt: string): (r: ChatMessage)
    ensures Extends(r, m)
  {
    if p.JNull? then AppendText(m, data)
    else
      var m1 := AppendStringField(m, p, "delta");
      var m2 := AppendStringField(m1, p, "directAnswer");
      var m3 := AddEvidence(m2, p);
      var m4 := AddAnalysis(m3, p);
      ExtendsTrans(m, m1, m2);
      ExtendsTrans(m, m2, m3);
      ExtendsTrans(m, m3, m4);
      ExtendsTrans(m, m4, AddCitations(m4, p, data, prompt));
      AddCitations(m4, p, data, prompt)
  }

  /** One complete frame; `true` when it was `[DONE]`. */
  function HandleFrame(m: ChatMessage, part: string, parse: string -> Option<Json>, prompt: string): (ChatMessage, bool) {
    match FrameData(part)
    case None => (m, false)
    case Some(data) =>
      if data == Done then (m.(isPartial := false), true)
      else
        match parse(data)
        case None => (AppendText(m, data), false)
        case Some(p) => (ApplyParsed(m, p, data, prompt), false)
  }

  function Handler(parse: string -> Option<Json>, prompt: string): (ChatMessage, string) -> (ChatMessage, bool) {
    (m, part) => HandleFrame(m, part, parse, prompt)
  }

  /** The read loop of `sendMessage`: every read is appended to `buf`, which is split on
      "\n\n"; each complete frame is handled in order and the last piece is kept; `[DONE]`
      returns at once. */
  method ReadFrames(m0: ChatMessage, chunks: seq<string>, parse: string -> Option<Json>, prompt: string)
    returns (end: End<ChatMessage>)
    ensures end == Stream(m0, "", chunks, FrameSeparator, Handler(parse, prompt))
  {
    var handle := Handler(parse, prompt);
    var m := m0;
    var buf := "";
    var i := 0;
    while i < |chunks|
      invariant 0 <= i <= |chunks|
      invariant Stream(m0, "", chunks, FrameSeparator, handle) == Stream(m, buf, chunks[i..], FrameSeparator, handle)
    {
      var parts := Split(buf + chunks[i], FrameSeparator);
      var complete := parts[..|parts| - 1];
      StreamStep(m, buf, chunks, i, FrameSeparator, handle, parts, Pieces(m, complete, handle));
      ghost var mi := m;
      var j := 0;
      while j < |complete|
        invariant 0 <= j <= |complete|
        invariant Pieces(mi, complete, handle) == Pieces(m, complete[j..], handle)
      {
        var (m1, stop) := handle(m, complete[j]);
        PiecesStep(m, complete, j, handle, (m1, stop));
        if stop {
          return Stopped(m1);
        }
        m := m1;
        j := j + 1;
      }
      buf := parts[|parts| - 1];
      i := i + 1;
    }
    return Drained(m, buf);
  }

  /** After the last read, a non-blank carried buffer: parsed, its truthy `delta` is
      appended; unparsable, or `null`, it is appended raw. */
  function Leftover(m: ChatMessage, buf: string, parse: string -> Option<Json>): (r: ChatMessage)
    ensures r.id == m.id && r.role == m.role && r.isPartial == m.isPartial
    ensures Trim(buf) == "" ==> r == m
  {
    if Trim(buf) == "" then m
    else
      match parse(buf)
      case None => AppendText(m, buf)
      case Some(p) =>
        if p.JNull? then AppendText(m, buf)
        else
          var d := Get(p, "delta");
          if TruthyOpt(d) then AppendText(m, ToJsString(d.value)) else m
  }

  /** `err?.message || String(err)`. */
  function ErrorText(e: ClientError): string {
    if e.message.Some? && e.message.value != "" then e.message.value else e.shown
  }

  const StreamErrorPrefix: string := "Stream error: "

  /** The agent message once `sendMessage` has finished with a reply: an error status
      replaces the text with `Error <status>: <body>`; a `[DONE]` frame ends the stream; a
      body that drains has its carried buffer handled; a read that throws replaces the text
      with the error. The message keeps its id and role, and is never left partial. */
  function Receive(m0: ChatMessage, reply: Reply, parse: string -> Option<Json>, prompt: string): (r: ChatMessage)
    ensures r.id == m0.id && r.role == m0.role && !r.isPartial
  {
    match reply
    case NotOk(status, _, body) =>
      m0.(text := "Error " + NatToString(status) + ": " + body, isPartial := false)
    case Body(_, chunks, failure) =>
      StreamKeepsIdentity(m0, chunks, parse, prompt);
      match Stream(m0, "", chunks, FrameSeparator, Handler(parse, prompt))
      case Stopped(m) => StoppedIsFinal(m0, chunks, parse, prompt); m
      case Drained(m, buf) =>
        if failure.Some? then m.(text := StreamErrorPrefix + ErrorText(failure.value), isPartial := false)
        else Leftover(m, buf, parse).(isPartial := false)
  }

  /** Every frame only appends to the agent message. */
  lemma HandleFrameExtends(m: ChatMessage, part: string, parse: string -> Option<Json>, prompt: string)
    ensures Extends(HandleFrame(m, part, parse, prompt).0, m)
  {
    match FrameData(part)
    case None =>
    case Some(data) =>
      if data != Done {
        match parse(data)
        case None =>
        case Some(p) =>
      }
  }

  /** However the stream is cut into reads, the frames it carries only append to the agent
      message: it keeps its id and role, and its text and lists start with what it had. */
  lemma StreamKeepsIdentity(m0: ChatMessage, chunks: seq<string>, parse: string -> Option<Json>, prompt: string)
    ensures Extends(Stream(m0, "", chunks, FrameSeparator, Handler(parse, prompt)).m, m0)
  {
    var inv := x => Extends(x, m0);
    forall x, part | inv(x) ensures inv(Handler(parse, prompt)(x, part).0) {
      HandleFrameExtends(x, part, parse, prompt);
      ExtendsTrans(m0, x, HandleFrame(x, part, parse, prompt).0);
    }
    assert inv(m0) by {
      ListAppendPrefix(m0.citations, []);
      ListAppendPrefix(m0.supportingEvidence, []);
      ListAppendPrefix(m0.contextualAnalysis, []);
      ListAppendPrefix(m0.text, "");
    }
    StreamPreserve(m0, "", chunks, FrameSeparator, Handler(parse, prompt), inv);
  }

  /** Only a `[DONE]` frame stops the stream, and it leaves the message final. */
  lemma {:induction false} PiecesStopFinal(m: ChatMessage, parts: seq<string>, parse: string -> Option<Json>, prompt: string)
    ensures Pieces(m, parts, Handler(parse, prompt)).1 ==> !Pieces(m, parts, Handler(parse, prompt)).0.isPartial
    decreases |parts|
  {
    if |parts| > 0 {
      var (m1, stop) := HandleFrame(m, parts[0], parse, prompt);
      if !stop {
        PiecesStopFinal(m1, parts[1..], parse, prompt);
      }
    }
  }

  lemma {:induction false} StreamStopFinal(m: ChatMessage, buf: string, chunks: seq<string>, parse: string -> Option<Json>, prompt: string)
    ensures var e := Stream(m, buf, chunks, FrameSeparator, Handler(parse, prompt));
      e.Stopped? ==> !e.m.isPartial
    decreases |chunks|
  {
    if |chunks| > 0 {
      var parts := Split(buf + chunks[0], FrameSeparator);
      PiecesStopFinal(m, parts[..|parts| - 1], parse, prompt);
      var (m1, stop) := Pieces(m, parts[..|parts| - 1], Handler(parse, prompt));
      if !stop {
        StreamStopFinal(m1, parts[|parts| - 1], chunks[1..], parse, prompt);
      }
    }
  }

  lemma StoppedIsFinal(m0: ChatMessage, chunks: seq<string>, parse: string -> Option<Json>, prompt: string)
    ensures var e := Stream(m0, "", chunks, FrameSeparator, Handler(parse, prompt));
      e.Stopped? ==> !e.m.isPartial
  {
    StreamStopFinal(m0, "", chunks, parse, prompt);
  }

  /** A `[DONE]` frame clears `isPartial` and ends the stream: no frame after it is
      handled. */
  lemma DoneEndsStream(m: ChatMessage, before: seq<string>, part: string, after: seq<string>,
                       parse: string -> Option<Json>, prompt: string)
    requires FrameData(part) == Some(Done)
    ensures Pieces(m, before + [part] + after, Handler(parse, prompt)) == Pieces(m, before + [part], Handler(parse, prompt))
    ensures Pieces(m, before + [part], Handler(parse, prompt)).1
    ensures !Pieces(m, before + [part], Handler(parse, prompt)).0.isPartial
  {
    PiecesStopAt(m, before, part, after, Handler(parse, prompt));
    PiecesStopFinal(m, before + [part], parse, prompt);
  }

  /** The message the stream produces depends only on the text received, not on how it was
      cut into reads. */
  lemma ChunkingIrrelevant(m0: ChatMessage, type1: string, chunks1: seq<string>, type2: string, chunks2: seq<string>,
                           failure: Option<ClientError>, parse: string -> Option<Json>, prompt: string)
    requires Flatten(chunks1) == Flatten(chunks2)
    ensures Receive(m0, Body(type1, chunks1, failure), parse, prompt) == Receive(m0, Body(type2, chunks2, failure), parse, prompt)
  {
    assert !Contains("", FrameSeparator) by { ContainsIffIndexOf("", FrameSeparator); }
    StreamIsWhole(m0, "", chunks1, FrameSeparator, Handler(parse, prompt));
    StreamIsWhole(m0, "", chunks2, FrameSeparator, Handler(parse, prompt));
  }

  /** The last member appended wins a lookup of its key. */
  lemma LastValueAppend(fields: seq<(string, Json)>, k0: string, v: Json, k: string)
    ensures LastValue(fields + [(k0, v)], k) == if k == k0 then Some(v) else LastValue(fields, k)
  {
    assert (fields + [(k0, v)])[..|fields|] == fields;
  }

  /** An enhanced document: its `link` names the year of the document (the string, or its
      title) or, when it has none, of the prompt; a string document becomes its `title`;
      an object document keeps every other member. */
  lemma EnhanceDocShape(doc: Json, prompt: string)
    requires EnhanceDoc(doc, prompt).Ok?
    ensures DocYear(doc).Ok?
    ensures Get(EnhanceDoc(doc, prompt).value, "link")
      == Some(JStr(LinkFor(if DocYear(doc).value.Some? then DocYear(doc).value else FirstYearString(prompt))))
    ensures doc.JStr? ==> Get(EnhanceDoc(doc, prompt).value, "title") == Some(doc)
    ensures doc.JObj? ==> forall k :: k != "link" ==> Get(EnhanceDoc(doc, prompt).value, k) == Get(doc, k)
  {
    var year := DocYear(doc).value;
    var y := if year.Some? then year else FirstYearString(prompt);
    var link := JStr(LinkFor(y));
    if doc.JStr? {
      assert [("title", doc), ("link", link)] == [("title", doc)] + [("link", link)];
      LastValueAppend([("title", doc)], "link", link, "title");
      assert LastValue([("title", doc)], "title") == Some(doc);
      LastValueAppend([("title", doc)], "link", link, "link");
    } else {
      LastValueAppend(Spread(doc), "link", link, "link");
      forall k | k != "link" ensures Get(EnhanceDoc(doc, prompt).value, k) == LastValue(Spread(doc), k) {
        LastValueAppend(Spread(doc), "link", link, k);
      }
    }
  }

  /** A document that throws is `null`, or has a truthy `title` that is not a string. */
  lemma EnhanceDocThrows(doc: Json, prompt: string)
    ensures EnhanceDoc(doc, prompt).Throws? <==>
      doc.JNull? || ((doc.JObj? || doc.JArr?) && TruthyOpt(Get(doc, "title")) && !Get(doc, "title").value.JStr?)
  {
  }

  /** The string a payload field contributes to `text`. */
  function StringField(p: Json, key: string): string {
    var v := Get(p, key);
    if v.Some? && v.value.JStr? then v.value.s else ""
  }

  /** The list a payload field contributes. */
  function ListField(p: Json, key: string): seq<Json> {
    var v := Get(p, key);
    if TruthyOpt(v) then AsList(v.value) else []
  }

  /** A parsed object payload whose documents do not throw appends its string `delta`, then
      its string `directAnswer`, to the text, and each list field, as a list, after the list
      it feeds. */
  lemma PayloadAccumulates(m: ChatMessage, p: Json, data: string, prompt: string)
    requires !p.JNull?
    requires EnhanceDocs(ListField(p, "sourceDocumentation"), prompt).Ok?
    ensures var r := ApplyParsed(m, p, data, prompt);
      r.text == m.text + StringField(p, "delta") + StringField(p, "directAnswer")
      && r.supportingEvidence == m.supportingEvidence + ListField(p, "supportingEvidence")
      && r.contextualAnalysis == m.contextualAnalysis + ListField(p, "contextualAnalysis")
      && r.citations == m.citations + EnhanceDocs(ListField(p, "sourceDocumentation"), prompt).value
      && r.isPartial == m.isPartial
  {
    var m1 := AppendStringField(m, p, "delta");
    StringFieldStep(m, p, "delta");
    var m2 := AppendStringField(m1, p, "directAnswer");
    StringFieldStep(m1, p, "directAnswer");
    var m3 := AddEvidence(m2, p);
    ListFieldStep(m2, p);
    var m4 := AddAnalysis(m3, p);
    ListFieldStep(m3, p);
    CitationsStep(m4, p, data, prompt);
    assert ApplyParsed(m, p, data, prompt) == AddCitations(m4, p, data, prompt);
  }

  lemma StringFieldStep(m: ChatMessage, p: Json, key: string)
    ensures AppendStringField(m, p, key) == m.(text := m.text + StringField(p, key))
  {
    if StringField(p, key) == "" {
      assert m.text + "" == m.text;
    }
  }

  lemma ListFieldStep(m: ChatMessage, p: Json)
    ensures AddEvidence(m, p) == m.(supportingEvidence := m.supportingEvidence + ListField(p, "supportingEvidence"))
    ensures AddAnalysis(m, p) == m.(contextualAnalysis := m.contextualAnalysis + ListField(p, "contextualAnalysis"))
  {
    assert m.supportingEvidence + [] == m.supportingEvidence;
    assert m.contextualAnalysis + [] == m.contextualAnalysis;
  }

  lemma CitationsStep(m: ChatMessage, p: Json, data: string, prompt: string)
    requires EnhanceDocs(ListField(p, "sourceDocumentation"), prompt).Ok?
    ensures AddCitations(m, p, data, prompt) == m.(citations := m.citations + EnhanceDocs(ListField(p, "sourceDocumentation"), prompt).value)
  {
    if !TruthyOpt(Get(p, "sourceDocumentation")) {
      assert EnhanceDocs([], prompt).value == [];
      assert m.citations + [] == m.citations;
    }
  }

  // ---------------------------------------------------------------------------
  // the hook's state

  const NewChatTitle: string := "New Chat"
  const TitleLength: nat := 50
  const MemoryWindow: nat := 6

  /** The body `sendMessage` posts: the prompt and the memory, as role and text. */
  datatype Request = Request(prompt: string, memory: seq<(Role, string)>)

  datatype HookState = HookState(conversations: seq<Conversation>, activeId: Option<string>, isStreaming: bool)

  predicate HasConversation(convs: seq<Conversation>, id: string) {
    exists i :: 0 <= i < |convs| && convs[i].id == id
  }

  /** An active id that is set and not empty. */
  predicate HasActive(s: HookState) {
    s.activeId.Some? && s.activeId.value != ""
  }

  /** Loading the persisted state: `saved` is the stored list when it is non-empty and
      parses. The saved active id is restored only when some conversation has it; otherwise
      the last conversation, if any, becomes active. */
  function RestoreSpec(s: HookState, saved: Option<seq<Conversation>>, savedActive: Option<string>): HookState {
    if saved.None? then s
    else
      var convs := saved.value;
      if savedActive.Some? && savedActive.value != "" && HasConversation(convs, savedActive.value) then
        s.(conversations := convs, activeId := savedActive)
      else if |convs| > 0 then s.(conversations := convs, activeId := Some(convs[|convs| - 1].id))
      else s.(conversations := convs)
  }

  /** After a restore of a non-empty list the active id names one of its conversations, and
      it is the saved one exactly when the saved one names a conversation. */
  lemma RestoreActive(s: HookState, saved: Option<seq<Conversation>>, savedActive: Option<string>)
    requires saved.Some? && |saved.value| > 0
    ensures var r := RestoreSpec(s, saved, savedActive);
      r.conversations == saved.value && r.activeId.Some? && HasConversation(r.conversations, r.activeId.value)
    ensures savedActive.Some? && savedActive.value != "" ==>
      (RestoreSpec(s, saved, savedActive).activeId == savedActive <==> HasConversation(saved.value, savedActive.value))
  {
    var convs := saved.value;
    assert convs[|convs| - 1].id == convs[|convs| - 1].id;
  }

  /** `startNewChat(id)`: an empty conversation titled "New Chat" is added last and made
      active. */
  function NewChatSpec(s: HookState, id: string): HookState {
    s.(conversations := s.conversations + [Conversation(id, NewChatTitle, [])], activeId := Some(id))
  }

  /** `prompt.slice(0, 50)`. */
  function Title(prompt: string): (r: string)
    ensures r <= prompt && |r| == if |prompt| < TitleLength then |prompt| else TitleLength
  {
    if |prompt| <= TitleLength then prompt else prompt[..TitleLength]
  }

  /** The user message goes last in conversation `convId`, which takes the first 50
      characters of the prompt as its title while it is still "New Chat". */
  function AddUser(convs: seq<Conversation>, convId: string, user: ChatMessage, prompt: string): seq<Conversation> {
    seq(|convs|, i requires 0 <= i < |convs| =>
      if convs[i].id != convId then convs[i]
      else convs[i].(messages := convs[i].messages + [user],
                     title := if convs[i].title == NewChatTitle then Title(prompt) else convs[i].title))
  }

  /** The agent placeholder goes last in conversation `convId`. */
  function AddAgent(convs: seq<Conversation>, convId: string, agent: ChatMessage): seq<Conversation> {
    seq(|convs|, i requires 0 <= i < |convs| =>
      if convs[i].id != convId then convs[i] else convs[i].(messages := convs[i].messages + [agent]))
  }

  /** The first conversation with id `id`. */
  function FindConversation(convs: seq<Conversation>, id: string): (r: Option<Conversation>)
    ensures r.Some? ==> r.value in convs && r.value.id == id
    ensures r.None? <==> !HasConversation(convs, id)
  {
    if |convs| == 0 then None
    else if convs[0].id == id then Some(convs[0])
    else
      var r := FindConversation(convs[1..], id);
      assert HasConversation(convs, id) <==> HasConversation(convs[1..], id) by {
        if HasConversation(convs, id) {
          var i :| 0 <= i < |convs| && convs[i].id == id;
          assert convs[1..][i - 1] == convs[i];
        }
        if HasConversation(convs[1..], id) {
          var i :| 0 <= i < |convs[1..]| && convs[1..][i].id == id;
          assert convs[i + 1] == convs[1..][i];
        }
      }
      r
  }

  /** Like `find`, FindConversation gives the first conversation with the id: every
      conversation before it has another id. */
  lemma {:induction false} FindConversationFirst(convs: seq<Conversation>, id: string)
    ensures var r := FindConversation(convs, id);
      r.Some? ==> exists i :: 0 <= i < |convs| && convs[i] == r.value
                              && forall j :: 0 <= j < i ==> convs[j].id != id
  {
    if |convs| > 0 && convs[0].id != id {
      var r := FindConversation(convs[1..], id);
      FindConversationFirst(convs[1..], id);
      if r.Some? {
        var i :| 0 <= i < |convs[1..]| && convs[1..][i] == r.value
                 && forall j :: 0 <= j < i ==> convs[1..][j].id != id;
        assert convs[i + 1] == r.value;
        forall j | 0 <= j < i + 1 ensures convs[j].id != id {
          if j > 0 { assert convs[j] == convs[1..][j - 1]; }
        }
      }
    }
  }

  /** At most the last `n` elements. */
  function LastN<T>(xs: seq<T>, n: nat): (r: seq<T>)
    ensures |r| == if |xs| < n then |xs| else n
    ensures forall i :: 0 <= i < |r| ==> r[i] == xs[|xs| - |r| + i]
  {
    if |xs| <= n then xs else xs[|xs| - n..]
  }

  /** Role and text of at most the last six of `msgs`. */
  function Recent(msgs: seq<ChatMessage>): (r: seq<(Role, string)>)
    ensures |r| == if |msgs| < MemoryWindow then |msgs| else MemoryWindow
    ensures forall k :: 0 <= k < |r| ==> r[k] == (msgs[|msgs| - |r| + k].role, msgs[|msgs| - |r| + k].text)
  {
    var last := LastN(msgs, MemoryWindow);
    seq(|last|, k requires 0 <= k < |last| => (last[k].role, last[k].text))
  }

  /** Role and text of at most the last six messages of conversation `convId` as the state
      stood before the send; none when there was no such conversation yet. */
  function Memory(convs: seq<Conversation>, convId: string): (r: seq<(Role, string)>)
    ensures |r| <= MemoryWindow
  {
    match FindConversation(convs, convId)
    case None => []
    case Some(c) => Recent(c.messages)
  }

  /** The user message: the prompt, complete, with empty lists. */
  function UserMessage(id: string, prompt: string): ChatMessage {
    ChatMessage(id, User, prompt, false, [], [], [])
  }

  /** The agent placeholder: empty, partial, with empty lists. */
  function Placeholder(id: string): ChatMessage {
    ChatMessage(id, Agent, "", true, [], [], [])
  }

  /** The patch that ignores the message it is given. */
  function Constant(p: Patch): ChatMessage -> Patch {
    _ => p
  }

  /** `sendMessage(prompt)` with the ids it draws, the reply `fetch` gives and `JSON.parse`:
      nothing while a stream is running; otherwise the conversation (the active one, or a
      new chat) gets the user message and the agent placeholder, the request carries the
      memory, and the placeholder becomes what the reply makes of it. */
  function SendSpec(s: HookState, prompt: string, userId: string, agentId: string, newConvId: string,
                    reply: Reply, parse: string -> Option<Json>): (HookState, Option<Request>)
  {
    if s.isStreaming then (s, None)
    else
      var s1 := if HasActive(s) then s else NewChatSpec(s, newConvId);
      var convId := s1.activeId.value;
      var convs := AddAgent(AddUser(s1.conversations, convId, UserMessage(userId, prompt), prompt), convId, Placeholder(agentId));
      var final := Receive(Placeholder(agentId), reply, parse, prompt);
      (HookState(UpdateMessage(convs, convId, agentId, Constant(Replace(final))), s1.activeId, false),
       Some(Request(prompt, Memory(s.conversations, convId))))
  }

  /** A send while streaming changes nothing and posts nothing. */
  lemma SendWhileStreaming(s: HookState, prompt: string, userId: string, agentId: string, newConvId: string,
                           reply: Reply, parse: string -> Option<Json>)
    requires s.isStreaming
    ensures SendSpec(s, prompt, userId, agentId, newConvId, reply, parse) == (s, None)
  {
  }

  /** A send ends with no stream running; the conversation that receives it (the active one
      or a new chat) gets the user message and the agent's final message, in that order;
      every other conversation is unchanged. */
  lemma SendAppendsExchange(s: HookState, prompt: string, userId: string, agentId: string, newConvId: string,
                            reply: Reply, parse: string -> Option<Json>, i: int)
    requires !s.isStreaming && userId != agentId
    requires forall c :: c in s.conversations ==> forall m :: m in c.messages ==> m.id != agentId
    ensures var (r, req) := SendSpec(s, prompt, userId, agentId, newConvId, reply, parse);
      !r.isStreaming && req.Some? && r.activeId.Some?
      && r.activeId == (if HasActive(s) then s.activeId else Some(newConvId))
      && |r.conversations| == |s.conversations| + (if HasActive(s) then 0 else 1)
    ensures var (r, req) := SendSpec(s, prompt, userId, agentId, newConvId, reply, parse);
      0 <= i < |s.conversations| ==>
        r.conversations[i] ==
          if s.conversations[i].id != r.activeId.value then s.conversations[i]
          else s.conversations[i].(
            messages := s.conversations[i].messages
                        + [UserMessage(userId, prompt), Receive(Placeholder(agentId), reply, parse, prompt)],
            title := if s.conversations[i].title == NewChatTitle then Title(prompt) else s.conversations[i].title)
  {
    var s1 := if HasActive(s) then s else NewChatSpec(s, newConvId);
    var convId := s1.activeId.value;
    var user, agent := UserMessage(userId, prompt), Placeholder(agentId);
    var convs := AddAgent(AddUser(s1.conversations, convId, user, prompt), convId, agent);
    var final := Receive(agent, reply, parse, prompt);
    if 0 <= i < |s.conversations| {
      var c := s.conversations[i];
      assert s1.conversations[i] == c;
      UpdateMessageOnly(convs, convId, agentId, Constant(Replace(final)), i, 0);
      var u := UpdateMessage(convs, convId, agentId, Constant(Replace(final)));
      if c.id == convId {
        var ms := c.messages + [user, agent];
        assert convs[i].messages == ms;
        forall j | 0 <= j < |ms| ensures u[i].messages[j] == (c.messages + [user, final])[j] {
          UpdateMessageOnly(convs, convId, agentId, Constant(Replace(final)), i, j);
          if j < |c.messages| {
            assert ms[j] in c.messages;
          } else if j == |c.messages| + 1 {
            MergeReplace(agent, final);
          }
        }
      }
    }
  }

  /** The request's memory is role and text of the last (at most) six messages of the
      receiving conversation as it stood before the send; a new chat sends none. */
  lemma SendMemory(s: HookState, prompt: string, userId: string, agentId: string, newConvId: string,
                   reply: Reply, parse: string -> Option<Json>, c: Conversation)
    requires !s.isStreaming
    requires HasActive(s) && FindConversation(s.conversations, s.activeId.value) == Some(c)
    ensures var req := SendSpec(s, prompt, userId, agentId, newConvId, reply, parse).1;
      req.Some? && req.value.prompt == prompt
      && |req.value.memory| == (if |c.messages| < MemoryWindow then |c.messages| else MemoryWindow)
      && forall k :: 0 <= k < |req.value.memory| ==>
           var m := c.messages[|c.messages| - |req.value.memory| + k];
           req.value.memory[k] == (m.role, m.text)
  {
    SendRequest(s, prompt, userId, agentId, newConvId, reply, parse);
    MemoryOfFound(s.conversations, s.activeId.value, c);
  }

  lemma MemoryOfFound(convs: seq<Conversation>, convId: string, c: Conversation)
    requires FindConversation(convs, convId) == Some(c)
    ensures var mem := Memory(convs, convId);
      |mem| == (if |c.messages| < MemoryWindow then |c.messages| else MemoryWindow)
      && forall k :: 0 <= k < |mem| ==>
           var m := c.messages[|c.messages| - |mem| + k];
           mem[k] == (m.role, m.text)
  {
    assert Memory(convs, convId) == Recent(c.messages);
  }

  lemma SendRequest(s: HookState, prompt: string, userId: string, agentId: string, newConvId: string,
                    reply: Reply, parse: string -> Option<Json>)
    requires !s.isStreaming && HasActive(s)
    ensures SendSpec(s, prompt, userId, agentId, newConvId, reply, parse).1
      == Some(Request(prompt, Memory(s.conversations, s.activeId.value)))
  {
  }

  /** The chat hook: the conversations, the active id and the streaming flag. */
  class ChatHook {
    var conversations: seq<Conversation>
    var activeId: Option<string>
    var isStreaming: bool

    function State(): HookState
      reads this
    {
      HookState(conversations, activeId, isStreaming)
    }

    /** The state before the persisted one is loaded. */
    constructor()
      ensures State() == HookState([], None, false)
    {
      conversations := [];
      activeId := None;
      isStreaming := false;
    }

    /** The load effect. */
    method Restore(saved: Option<seq<Conversation>>, savedActive: Option<string>)
      modifies this
      ensures State() == RestoreSpec(old(State()), saved, savedActive)
    {
      if saved.Some? {
        var convs := saved.value;
        conversations := convs;
        if savedActive.Some? && savedActive.value != "" && HasConversation(convs, savedActive.value) {
          activeId := savedActive;
        } else if |convs| > 0 {
          activeId := Some(convs[|convs| - 1].id);
        }
      }
    }

    /** `startNewChat` with the id it draws. */
    method StartNewChat(id: string) returns (r: string)
      modifies this
      ensures State() == NewChatSpec(old(State()), id) && r == id
    {
      conversations := conversations + [Conversation(id, NewChatTitle, [])];
      activeId := Some(id);
      return id;
    }

    /** `updateMessage`. */
    method Update(convId: string, msgId: string, patch: ChatMessage -> Patch)
      modifies this
      ensures State() == old(State()).(conversations := UpdateMessage(old(conversations), convId, msgId, patch))
    {
      conversations := UpdateMessage(conversations, convId, msgId, patch);
    }

    /** `sendMessage`; returns the request it posts, if any. */
    method SendMessage(prompt: string, userId: string, agentId: string, newConvId: string,
                       reply: Reply, parse: string -> Option<Json>) returns (request: Option<Request>)
      modifies this
      ensures (State(), request) == SendSpec(old(State()), prompt, userId, agentId, newConvId, reply, parse)
    {
      if isStreaming {
        return None;
      }
      var before := conversations;
      var convId: string;
      if activeId.Some? && activeId.value != "" {
        convId := activeId.value;
      } else {
        convId := StartNewChat(newConvId);
      }
      conversations := AddUser(conversations, convId, UserMessage(userId, prompt), prompt);
      var agent := Placeholder(agentId);
      conversations := AddAgent(conversations, convId, agent);
      request := Some(Request(prompt, Memory(before, convId)));
      isStreaming := true;
      var final := ReceiveMessage(agent, reply, parse, prompt);
      Update(convId, agentId, Constant(Replace(final)));
      isStreaming := false;
    }
  }

  /** The body of `sendMessage` from `fetch` on: the read loop, then the end of the
      stream. */
  method ReceiveMessage(m0: ChatMessage, reply: Reply, parse: string -> Option<Json>, prompt: string)
    returns (m: ChatMessage)
    ensures m == Receive(m0, reply, parse, prompt)
  {
    match reply {
      case NotOk(status, _, body) =>
        return m0.(text := "Error " + NatToString(status) + ": " + body, isPartial := false);
      case Body(_, chunks, failure) =>
        var end := ReadFrames(m0, chunks, parse, prompt);
        match end {
          case Stopped(m1) => return m1;
          case Drained(m1, buf) =>
            if failure.Some? {
              return m1.(text := StreamErrorPrefix + ErrorText(failure.value), isPartial := false);
            }
            return Leftover(m1, buf, parse).(isPartial := false);
        }
    }
  }
}
