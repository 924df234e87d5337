/** Server-sent event frames (rust-old/src/stream.rs), read back by the event stream algorithm of
    section 9.2.6 of the WHATWG HTML standard. */
module Sse {
  import opened Wrappers

  // ---------- Writing ----------

  /** The pieces between newlines: one more than there are newlines. */
  function Lines(s: string): (r: seq<string>)
    ensures r != []
  {
    if s == "" then [""]
    else
      var rest := Lines(s[1..]);
      if s[0] == '\n' then [""] + rest else [[s[0]] + rest[0]] + rest[1..]
  }

  function DataLines(lines: seq<string>): string {
    if lines == [] then "" else "data: " + lines[0] + "\n" + DataLines(lines[1..])
  }

  function Field(name: string, value: Option<string>): string {
    match value
    case None => ""
    case Some(v) => name + ": " + v + "\n"
  }

  function Frame(event: Option<string>, id: Option<string>, data: string): string {
    Field("event", event) + (Field("id", id) + (DataLines(Lines(data)) + "\n"))
  }

  method SseFrame(event: Option<string>, id: Option<string>, data: string) returns (out: string)
    ensures out == Frame(event, id, data)
  {
    hide DataLines, Lines, Field;
    out := AppendField("", "event", event);
    out := AppendField(out, "id", id);
    out := AppendData(out, Lines(data));
    out := out + "\n";
    Regroup(Field("event", event), Field("id", id), DataLines(Lines(data)));
  }

  lemma Regroup(a: string, b: string, c: string)
    ensures "" + a + b + c + "\n" == a + (b + (c + "\n"))
  {
  }

  /** A frame as written: the event line, the id line, one line for each line of data, and a blank line. */
  lemma FrameText(event: string, id: string, data: string, more: string)
    requires '\n' !in data && '\n' !in more
    ensures Frame(Some(event), Some(id), data + "\n" + more) ==
      ("event: " + event + "\n") + (("id: " + id + "\n") + (("data: " + data + "\n" + ("data: " + more + "\n")) + "\n"))
    ensures Frame(None, None, data) == "data: " + data + "\n" + "\n"
  {
    LinesOfTwo(data, more);
    SingleLine(data);
    FieldText("event", event);
    FieldText("id", id);
    hide Lines, Field;
    assert [data, more][1..] == [more] && [more][1..] == [] && [data][1..] == [];
    assert DataLines([more]) == "data: " + more + "\n" + "" == "data: " + more + "\n";
    assert DataLines([data]) == "data: " + data + "\n" + "" == "data: " + data + "\n";
    assert DataLines([data, more]) == "data: " + data + "\n" + DataLines([more]);
    NoFields(data);
  }

  lemma FieldText(name: string, value: string)
    ensures Field(name, Some(value)) == name + ": " + value + "\n"
    ensures "event" + ": " == "event: " && "id" + ": " == "id: "
  {
  }

  lemma NoFields(data: string)
    ensures Frame(None, None, data) == DataLines(Lines(data)) + "\n"
  {
    var body := DataLines(Lines(data)) + "\n";
    assert "" + ("" + body) == body;
  }

  lemma {:induction false} LinesOfTwo(data: string, more: string)
    requires '\n' !in data && '\n' !in more
    ensures Lines(data + "\n" + more) == [data, more]
  {
    var s := data + "\n" + more;
    if data == "" {
      SingleLine(more);
      assert s[1..] == more;
    } else {
      LinesOfTwo(data[1..], more);
      assert s[1..] == data[1..] + "\n" + more && data == [data[0]] + data[1..];
    }
  }

  method AppendField(out: string, name: string, value: Option<string>) returns (out': string)
    ensures out' == out + Field(name, value)
  {
    out' := out;
    if value.Some? {
      out' := out' + (name + ": " + value.value + "\n");
    }
  }

  method AppendData(out: string, lines: seq<string>) returns (out': string)
    ensures out' == out + DataLines(lines)
  {
    out' := out;
    for i := 0 to |lines|
      invariant out' + DataLines(lines[i..]) == out + DataLines(lines)
    {
      ghost var rest := DataLines(lines[i + 1..]);
      assert lines[i..][0] == lines[i] && lines[i..][1..] == lines[i + 1..];
      assert out' + ("data: " + lines[i] + "\n" + rest) == out' + ("data: " + lines[i] + "\n") + rest;
      out' := out' + ("data: " + lines[i] + "\n");
    }
    assert DataLines(lines[|lines|..]) == "";
  }

  // ---------- Reading, as the standard says ----------

  datatype Event = Event(kind: string, data: string, lastEventId: string)

  // The data, event type and last event ID buffers, the current line, whether the last character
  // was a carriage return, and the events dispatched so far.
  datatype Reader = Reader(
    data: string,
    kind: string,
    lastId: string,
    line: string,
    afterCr: bool,
    events: seq<Event>)

  function Fresh(lastId: string, events: seq<Event>): Reader {
    Reader("", "", lastId, "", false, events)
  }

  /** The index of the first colon, or the length. */
  function Colon(s: string): (i: nat)
    ensures i <= |s| && (forall k :: 0 <= k < i ==> s[k] != ':') && (i < |s| ==> s[i] == ':')
  {
    if s == "" || s[0] == ':' then 0 else 1 + Colon(s[1..])
  }

  function FieldValue(s: string): string {
    if s != "" && s[0] == ' ' then s[1..] else s
  }

  function ProcessField(r: Reader, name: string, value: string): Reader {
    if name == "event" then r.(kind := value)
    else if name == "data" then r.(data := r.data + value + "\n")
    else if name == "id" then (if '\0' in value then r else r.(lastId := value))
    else r  // "retry" only sets the reconnection time; other fields are ignored
  }

  function Dispatch(r: Reader): Reader {
    if r.data == "" then r.(kind := "")
    else
      var data := if r.data[|r.data| - 1] == '\n' then r.data[..|r.data| - 1] else r.data;
      var kind := if r.kind == "" then "message" else r.kind;
      r.(data := "", kind := "", events := r.events + [Event(kind, data, r.lastId)])
  }

  function ProcessLine(r: Reader, line: string): Reader {
    if line == "" then Dispatch(r)
    else
      var i := Colon(line);
      if i == 0 then r
      else if i < |line| then ProcessField(r, line[..i], FieldValue(line[i + 1..]))
      else ProcessField(r, line, "")
  }

  /** One more character: lines end in CRLF, LF or CR. */
  function ReadChar(r: Reader, c: char): Reader {
    if c == '\n' && r.afterCr then r.(afterCr := false)
    else if c == '\n' || c == '\r' then ProcessLine(r.(line := ""), r.line).(afterCr := c == '\r')
    else r.(line := r.line + [c], afterCr := false)
  }

  function ReadFrom(r: Reader, s: string): Reader
    decreases |s|
  {
    if s == "" then r else ReadFrom(ReadChar(r, s[0]), s[1..])
  }

  /** The events of a stream; a leading byte order mark is dropped, unfinished input discarded. */
  function ReadStream(s: string): seq<Event> {
    ReadFrom(Fresh("", []), if s != "" && s[0] == '\U{FEFF}' then s[1..] else s).events
  }

  // ---------- Reading one line at a time ----------

  predicate OneLine(s: string) {
    forall i :: 0 <= i < |s| ==> s[i] != '\n' && s[i] != '\r'
  }

  lemma {:induction false} ReadLine(r: Reader, l: string, rest: string)
    requires OneLine(l) && !r.afterCr
    ensures ReadFrom(r, l + ("\n" + rest)) == ReadFrom(ProcessLine(r.(line := ""), r.line + l).(afterCr := false), rest)
    decreases |l|
  {
    hide ProcessLine;
    var s := l + ("\n" + rest);
    if l == "" {
      assert s == "\n" + rest && s[1..] == rest;
      assert r.line + l == r.line;
    } else {
      assert s[0] == l[0] && s[1..] == l[1..] + ("\n" + rest);
      ReadLine(ReadChar(r, s[0]), l[1..], rest);
      assert r.line + [l[0]] + l[1..] == r.line + l;
    }
  }

  lemma ProcessNamed(r: Reader, name: string, value: string)
    requires name != "" && forall k :: 0 <= k < |name| ==> name[k] != ':'
    ensures ProcessLine(r, name + ": " + value) == ProcessField(r, name, value)
  {
    var line := name + ": " + value;
    assert line[|name|] == ':';
    assert Colon(line) == |name|;
    assert line[..|name|] == name && line[|name| + 1..] == " " + value && (" " + value)[1..] == value;
  }

  lemma ReadNamed(r: Reader, name: string, value: string, rest: string)
    requires r.line == "" && !r.afterCr && OneLine(name) && OneLine(value)
    requires name != "" && forall k :: 0 <= k < |name| ==> name[k] != ':'
    ensures ReadFrom(r, name + ": " + value + "\n" + rest) == ReadFrom(ProcessField(r, name, value), rest)
  {
    hide ProcessLine;
    var line := name + ": " + value;
    assert r.(line := "") == r && r.line + line == line;
    assert line + "\n" + rest == line + ("\n" + rest);
    ReadLine(r, line, rest);
    ProcessNamed(r, name, value);
    assert ProcessField(r, name, value).(afterCr := false) == ProcessField(r, name, value);
  }

  // ---------- Data ----------

  function Joined(lines: seq<string>): string {
    if lines == [] then "" else lines[0] + "\n" + Joined(lines[1..])
  }

  lemma {:induction false} LinesJoined(s: string)
    ensures Joined(Lines(s)) == s + "\n"
  {
    if s == "" {
      assert Lines(s)[1..] == [];
    } else {
      var rest := Lines(s[1..]);
      LinesJoined(s[1..]);
      assert s == [s[0]] + s[1..];
      if s[0] == '\n' {
        assert Lines(s)[1..] == rest;
      } else {
        assert Lines(s)[0] == [s[0]] + rest[0] && Lines(s)[1..] == rest[1..];
        assert [s[0]] + rest[0] + "\n" + Joined(rest[1..]) == [s[0]] + (rest[0] + "\n" + Joined(rest[1..]));
      }
    }
  }

  lemma {:induction false} LinesAreLines(s: string)
    requires '\r' !in s
    ensures forall l :: l in Lines(s) ==> OneLine(l)
  {
    if s != "" {
      var rest := Lines(s[1..]);
      LinesAreLines(s[1..]);
      assert s[0] in s;
      assert rest[0] in rest && forall l :: l in rest[1..] ==> l in rest;
    }
  }

  lemma {:induction false} ReadData(r: Reader, lines: seq<string>, rest: string)
    requires r.line == "" && !r.afterCr && forall l :: l in lines ==> OneLine(l)
    decreases |lines|
    ensures ReadFrom(r, DataLines(lines) + rest) == ReadFrom(r.(data := r.data + Joined(lines)), rest)
  {
    if lines == [] {
      assert DataLines(lines) + rest == rest && r.data + "" == r.data;
    } else {
      var more := DataLines(lines[1..]) + rest;
      assert DataLines(lines) + rest == "data" + ": " + lines[0] + "\n" + more;
      ReadNamed(r, "data", lines[0], more);
      var r' := r.(data := r.data + lines[0] + "\n");
      ReadData(r', lines[1..], rest);
      assert r.data + lines[0] + "\n" + Joined(lines[1..]) == r.data + Joined(lines);
    }
  }

  lemma ReadField(r: Reader, name: string, value: Option<string>, rest: string)
    requires r.line == "" && !r.afterCr && OneLine(name) && (value.Some? ==> OneLine(value.value))
    requires name != "" && forall k :: 0 <= k < |name| ==> name[k] != ':'
    ensures ReadFrom(r, Field(name, value) + rest) ==
      ReadFrom(if value.Some? then ProcessField(r, name, value.value) else r, rest)
  {
    if value.Some? {
      ReadNamed(r, name, value.value, rest);
    } else {
      assert Field(name, value) + rest == rest;
    }
  }

  // ---------- The theorems ----------

  /** Text the frame format carries unchanged. */
  predicate Clean(event: Option<string>, id: Option<string>, data: string) {
    && (event.Some? ==> event.value != "" && OneLine(event.value))
    && (id.Some? ==> OneLine(id.value) && '\0' !in id.value)
    && '\r' !in data
  }

  function GetOr(o: Option<string>, default: string): string {
    match o
    case Some(s) => s
    case None => default
  }

  /** The event the frame stands for; a frame without an id keeps the last one. */
  function Meant(event: Option<string>, id: Option<string>, data: string, lastId: string): Event {
    Event(GetOr(event, "message"), data, GetOr(id, lastId))
  }

  lemma ReadFrame(lastId: string, events: seq<Event>, event: Option<string>, id: Option<string>, data: string, rest: string)
    requires Clean(event, id, data)
    ensures ReadFrom(Fresh(lastId, events), Frame(event, id, data) + rest) ==
      ReadFrom(Fresh(GetOr(id, lastId), events + [Meant(event, id, data, lastId)]), rest)
  {
    hide ReadFrom, ReadChar, ProcessLine, Field;
    var r0 := Fresh(lastId, events);
    var body := DataLines(Lines(data)) + ("\n" + rest);
    assert Frame(event, id, data) + rest == Field("event", event) + (Field("id", id) + body);
    ReadField(r0, "event", event, Field("id", id) + body);
    var r1 := if event.Some? then ProcessField(r0, "event", event.value) else r0;
    ReadField(r1, "id", id, body);
    var r2 := if id.Some? then ProcessField(r1, "id", id.value) else r1;
    LinesJoined(data);
    LinesAreLines(data);
    ReadData(r2, Lines(data), "\n" + rest);
    var r3 := r2.(data := r2.data + Joined(Lines(data)));
    assert r3.data == data + "\n";
    assert "" + ("\n" + rest) == "\n" + rest;
    ReadLine(r3, "", rest);
    DispatchFull(r3, data);
  }

  lemma DispatchFull(r: Reader, data: string)
    requires r.data == data + "\n" && r.line == "" && !r.afterCr
    ensures ProcessLine(r.(line := ""), r.line + "").(afterCr := false) ==
      Fresh(r.lastId, r.events + [Event(if r.kind == "" then "message" else r.kind, data, r.lastId)])
  {
    assert r.line + "" == "";
    assert r.data[..|r.data| - 1] == data;
  }

  datatype Message = Message(event: Option<string>, id: Option<string>, data: string)

  function Stream(messages: seq<Message>): string {
    if messages == [] then ""
    else Frame(messages[0].event, messages[0].id, messages[0].data) + Stream(messages[1..])
  }

  function Deliveries(messages: seq<Message>, lastId: string): seq<Event> {
    if messages == [] then []
    else
      var m := messages[0];
      [Meant(m.event, m.id, m.data, lastId)] + Deliveries(messages[1..], GetOr(m.id, lastId))
  }

  lemma {:induction false} ReadFrames(messages: seq<Message>, lastId: string, events: seq<Event>)
    requires forall m :: m in messages ==> Clean(m.event, m.id, m.data)
    ensures ReadFrom(Fresh(lastId, events), Stream(messages)).events == events + Deliveries(messages, lastId)
  {
    if messages == [] {
      assert events + Deliveries(messages, lastId) == events;
    } else {
      hide ReadFrom, Frame, Clean, Meant, Fresh, GetOr;
      var m := messages[0];
      assert m in messages;
      ReadFrame(lastId, events, m.event, m.id, m.data, Stream(messages[1..]));
      var e, rest := Meant(m.event, m.id, m.data, lastId), Deliveries(messages[1..], GetOr(m.id, lastId));
      ReadFrames(messages[1..], GetOr(m.id, lastId), events + [e]);
      EventsRegroup(events, e, rest);
    }
  }

  lemma EventsRegroup(events: seq<Event>, e: Event, rest: seq<Event>)
    ensures events + [e] + rest == events + ([e] + rest)
  {
  }

  lemma FrameStart(event: Option<string>, id: Option<string>, data: string)
    ensures Frame(event, id, data) != "" && Frame(event, id, data)[0] in "eid"
  {
    assert DataLines(Lines(data))[0] == 'd';
  }

  // ---------- Nothing more survives ----------

  /** What the reader can hold: no carriage return anywhere, no newline outside data. */
  predicate Held(r: Reader) {
    && '\r' !in r.data && OneLine(r.kind) && OneLine(r.lastId) && '\0' !in r.lastId && OneLine(r.line)
    && forall e :: e in r.events ==> HeldEvent(e)
  }

  predicate HeldEvent(e: Event) {
    '\r' !in e.data && e.kind != "" && OneLine(e.kind) && OneLine(e.lastEventId) && '\0' !in e.lastEventId
  }

  lemma FieldKeepsHeld(r: Reader, name: string, value: string)
    requires Held(r) && OneLine(value)
    ensures Held(ProcessField(r, name, value))
  {
  }

  lemma LineKeepsHeld(r: Reader, line: string)
    requires Held(r) && OneLine(line)
    ensures Held(ProcessLine(r, line))
  {
    if line == "" {
      assert OneLine("message");
    } else {
      var i := Colon(line);
      if 0 < i < |line| {
        FieldKeepsHeld(r, line[..i], FieldValue(line[i + 1..]));
      } else if i == |line| {
        FieldKeepsHeld(r, line, "");
      }
    }
  }

  lemma {:induction false} ReadingKeepsHeld(r: Reader, s: string)
    requires Held(r)
    ensures Held(ReadFrom(r, s))
    decreases |s|
  {
    if s != "" {
      LineKeepsHeld(r.(line := ""), r.line);
      hide ProcessLine;
      ReadingKeepsHeld(ReadChar(r, s[0]), s[1..]);
    }
  }

  /** Events the reader can hold are only meant by clean texts. */
  lemma {:induction false} HeldDeliveriesAreClean(messages: seq<Message>, lastId: string)
    requires forall e :: e in Deliveries(messages, lastId) ==> HeldEvent(e)
    ensures forall m :: m in messages ==> Clean(m.event, m.id, m.data)
  {
    if messages != [] {
      var m, rest := messages[0], Deliveries(messages[1..], GetOr(messages[0].id, lastId));
      assert Deliveries(messages, lastId) == [Meant(m.event, m.id, m.data, lastId)] + rest;
      assert Meant(m.event, m.id, m.data, lastId) in Deliveries(messages, lastId);
      assert forall e :: e in rest ==> e in Deliveries(messages, lastId);
      HeldDeliveriesAreClean(messages[1..], GetOr(m.id, lastId));
    }
  }

  /** A concatenation of frames reads back as the messages written, in order and with ids carried over,
      exactly when all their texts are clean. */
  lemma StreamReadsBack(messages: seq<Message>)
    ensures ReadStream(Stream(messages)) == Deliveries(messages, "") <==>
      forall m :: m in messages ==> Clean(m.event, m.id, m.data)
  {
    hide Frame, Clean, Meant, GetOr, HeldEvent, ReadFrom;
    if messages != [] {
      FrameStart(messages[0].event, messages[0].id, messages[0].data);
    }
    if forall m :: m in messages ==> Clean(m.event, m.id, m.data) {
      ReadFrames(messages, "", []);
      assert [] + Deliveries(messages, "") == Deliveries(messages, "");
    }
    ReadingKeepsHeld(Fresh("", []), Stream(messages));
    if ReadStream(Stream(messages)) == Deliveries(messages, "") {
      HeldDeliveriesAreClean(messages, "");
    }
  }

  /** A frame reads back as the event it stands for exactly when its texts are clean. */
  lemma FrameReadsBackExactlyWhenClean(event: Option<string>, id: Option<string>, data: string)
    ensures ReadStream(Frame(event, id, data)) == [Meant(event, id, data, "")] <==> Clean(event, id, data)
  {
    var messages := [Message(event, id, data)];
    StreamReadsBack(messages);
    hide Frame, Clean, Meant, ReadStream;
    assert Stream(messages) == Frame(event, id, data) + Stream([]) == Frame(event, id, data);
    assert Deliveries(messages, "") == [Meant(event, id, data, "")];
    assert forall m :: m in messages <==> m == Message(event, id, data);
  }

  // ---------- A carriage return in the data ----------

  lemma {:induction false} ReadText(r: Reader, l: string, rest: string)
    requires OneLine(l)
    ensures ReadFrom(r, l + rest) == ReadFrom(if l == "" then r else r.(line := r.line + l, afterCr := false), rest)
    decreases |l|
  {
    hide ProcessLine;
    if l == "" {
      assert l + rest == rest;
    } else {
      var s := l + rest;
      assert s[0] == l[0] && s[1..] == l[1..] + rest;
      ReadText(ReadChar(r, s[0]), l[1..], rest);
      assert r.line + [l[0]] + l[1..] == r.line + l;
      assert l[1..] == "" ==> r.line + [l[0]] == r.line + l;
    }
  }

  lemma ReadEnd(r: Reader, c: char, rest: string)
    requires (c == '\n' && !r.afterCr) || c == '\r'
    ensures ReadFrom(r, [c] + rest) == ReadFrom(ProcessLine(r.(line := ""), r.line).(afterCr := c == '\r'), rest)
  {
    assert ([c] + rest)[0] == c && ([c] + rest)[1..] == rest;
  }

  lemma {:induction false} SingleLine(s: string)
    requires '\n' !in s
    ensures Lines(s) == [s]
  {
    if s != "" {
      SingleLine(s[1..]);
      assert s == [s[0]] + s[1..];
    }
  }

  predicate NamesNoField(line: string) {
    line != "" && (forall k :: 0 <= k < |line| ==> line[k] != ':') && line != "data" && line != "event" && line != "id"
  }

  /** Data with a carriage return is cut there: what follows is read as a line of its own, and ignored
      if it names no field. */
  lemma CarriageReturnCuts(x: string, y: string)
    requires OneLine(x) && OneLine(y) && NamesNoField(y)
    ensures ReadStream(Frame(None, None, x + "\r" + y)) == [Event("message", x, "")]
    ensures !Clean(None, None, x + "\r" + y)
  {
    hide ReadFrom, ReadChar, ProcessLine, Lines;
    var data := x + "\r" + y;
    assert data[|x|] == '\r';
    SingleLine(data);
    var line := "data" + ": " + x;
    FrameStart(None, None, data);
    FramedCut(x, y);
    var r0 := Fresh("", []);
    ReadText(r0, line, "\r" + (y + ("\n" + ("\n" + ""))));
    var r1 := r0.(line := line);
    assert "" + line == line && r1.(line := "") == r0;
    ReadEnd(r1, '\r', y + ("\n" + ("\n" + "")));
    ProcessNamed(r0, "data", x);
    var r2 := r0.(data := x + "\n", afterCr := true);
    assert "" + x + "\n" == x + "\n";
    ReadText(r2, y, "\n" + ("\n" + ""));
    var r3 := r2.(line := y, afterCr := false);
    assert "" + y == y;
    ReadEnd(r3, '\n', "\n" + "");
    IgnoredLine(r3.(line := ""), y);
    ReadEnd(r3.(line := ""), '\n', "");
    DispatchFull(r3.(line := ""), x);
    NothingRead(r0.(events := [Event("message", x, "")]));
    assert [] + [Event("message", x, "")] == [Event("message", x, "")];
    assert r3.(line := "").line + "" == "";
  }

  lemma FramedCut(x: string, y: string)
    requires Lines(x + "\r" + y) == [x + "\r" + y]
    ensures Frame(None, None, x + "\r" + y) == ("data" + ": " + x) + ("\r" + (y + ("\n" + ("\n" + ""))))
  {
    hide Lines;
    var data := x + "\r" + y;
    assert DataLines([data]) == "data: " + data + "\n";
  }

  lemma IgnoredLine(r: Reader, y: string)
    requires NamesNoField(y)
    ensures ProcessLine(r, y) == r
  {
  }

  lemma NothingRead(r: Reader)
    ensures ReadFrom(r, "") == r
  {
  }
}
