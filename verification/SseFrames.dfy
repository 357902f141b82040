/** Server-sent events: what the writer puts on the wire, and what a client that follows
    section 9.2.6 of the WHATWG HTML standard makes of it. */
module SseFrames {
  import Text

  datatype Frame = Frame(id: string, event: string, data: string)

  const HEARTBEAT_EVENT := "HEARTBEAT"

  // ---------------------------------------------------------------------------------------
  // The writer.

  function DataOf(frame: Frame): string {
    if frame.data == "" then "{}" else frame.data
  }

  function DataLines(lines: seq<string>): string {
    if lines == [] then "" else "data: " + lines[0] + "\n" + DataLines(lines[1..])
  }

  function Field(name: string, value: string): string {
    if value == "" then "" else name + ": " + value + "\n"
  }

  function EncodedData(frame: Frame): string {
    DataLines(Text.Split(DataOf(frame), '\n')) + "\n"
  }

  function Encoded(frame: Frame): string {
    Field("id", frame.id) + (Field("event", frame.event) + EncodedData(frame))
  }

  function EncodedAll(frames: seq<Frame>): string {
    if frames == [] then "" else Encoded(frames[0]) + EncodedAll(frames[1..])
  }

  /** A frame with one line of data, on the wire. */
  lemma SimpleFrameIs(frame: Frame)
    requires '\n' !in frame.data
    ensures Encoded(frame) ==
      (if frame.id == "" then "" else "id: " + frame.id + "\n")
      + (if frame.event == "" then "" else "event: " + frame.event + "\n")
      + (if frame.data == "" then "data: {}\n\n" else "data: " + frame.data + "\n\n")
  {
    var data := DataOf(frame);
    Text.SplitWhole(data, '\n');
    assert DataLines([data]) == "data: " + data + "\n" + "";
    assert EncodedData(frame) == "data: " + data + "\n\n";
    if frame.data == "" {
      assert "data: " + "{}" + "\n\n" == "data: {}\n\n";
    }
    assert "id" + ": " == "id: " && "event" + ": " == "event: ";
    var id, event := Field("id", frame.id), Field("event", frame.event);
    assert id == if frame.id == "" then "" else "id: " + frame.id + "\n";
    assert event == if frame.event == "" then "" else "event: " + frame.event + "\n";
    assert id + (event + EncodedData(frame)) == id + event + EncodedData(frame);
  }

  lemma HeartbeatIs()
    ensures Encoded(Frame("", HEARTBEAT_EVENT, "{}")) == "event: HEARTBEAT\ndata: {}\n\n"
  {
    SimpleFrameIs(Frame("", HEARTBEAT_EVENT, "{}"));
    assert "data: " + "{}" + "\n\n" == "data: {}\n\n";
    assert "event: " + "HEARTBEAT" + "\n" == "event: HEARTBEAT\n";
    assert "" + "event: HEARTBEAT\n" + "data: {}\n\n" == "event: HEARTBEAT\ndata: {}\n\n";
  }

  /** A connection that may break: it takes so many more characters. */
  class Connection {
    var sent: string
    var room: nat

    constructor (room: nat)
      ensures sent == "" && this.room == room
    {
      sent, this.room := "", room;
    }

    /** Writes s, of a message that continues with the rest. */
    method Write(s: string, ghost rest: string) returns (ok: bool)
      modifies this
      ensures ok ==> sent == old(sent) + s && room == old(room) - |s| >= 0
      ensures !ok ==> old(sent) <= sent <= old(sent) + (s + rest) && |s + rest| > old(room)
    {
      ok := |s| <= room;
      var n := if ok then |s| else room;
      sent := sent + s[..n];
      room := room - n;
      assert ok ==> s[..n] == s;
    }

    /** A field, unless it is empty. */
    method WriteField(name: string, value: string, ghost rest: string) returns (ok: bool)
      modifies this
      ensures ok ==> sent == old(sent) + Field(name, value) && room == old(room) - |Field(name, value)| >= 0
      ensures !ok ==>
        old(sent) <= sent <= old(sent) + (Field(name, value) + rest) && |Field(name, value) + rest| > old(room)
    {
      ok := true;
      if value != "" {
        ok := Write(name + ": " + value + "\n", rest);
      }
    }

    /** The data lines and the blank line that ends the frame. */
    method WriteData(lines: seq<string>) returns (ok: bool)
      modifies this
      ensures var message := DataLines(lines) + "\n";
        && (ok ==> sent == old(sent) + message && room == old(room) - |message| >= 0)
        && (!ok ==> old(sent) <= sent <= old(sent) + message && |message| > old(room))
    {
      ghost var start, message := sent, DataLines(lines) + "\n";
      for i := 0 to |lines|
        invariant start <= sent && sent + (DataLines(lines[i..]) + "\n") == start + message
        invariant room == old(room) - (|sent| - |start|)
      {
        assert lines[i..][1..] == lines[i + 1..];
        ghost var rest := DataLines(lines[i + 1..]) + "\n";
        assert DataLines(lines[i..]) + "\n" == "data: " + lines[i] + "\n" + rest;
        ok := Write("data: " + lines[i] + "\n", rest);
        if !ok {
          return;
        }
      }
      ok := Write("\n", "");
    }

    /** Sends the frame, or a part of it from the front. */
    method WriteFrame(frame: Frame) returns (ok: bool)
      modifies this
      ensures ok ==> sent == old(sent) + Encoded(frame)
      ensures !ok ==> old(sent) <= sent <= old(sent) + Encoded(frame)
      ensures ok <==> |Encoded(frame)| <= old(room)
    {
      ghost var id, event, rest := Field("id", frame.id), Field("event", frame.event), EncodedData(frame);
      ok := WriteField("id", frame.id, event + rest);
      if !ok {
        return;
      }
      ok := WriteField("event", frame.event, rest);
      assert old(sent) + id + (event + rest) == old(sent) + (id + (event + rest));
      if !ok {
        return;
      }
      assert old(sent) + id + event + rest == old(sent) + (id + (event + rest));
      var data := frame.data;
      if data == "" {
        data := "{}";
      }
      ok := WriteData(Text.Split(data, '\n'));
    }

    method WriteHeartbeat() returns (ok: bool)
      modifies this
      ensures ok ==> sent == old(sent) + "event: HEARTBEAT\ndata: {}\n\n"
      ensures !ok ==> old(sent) <= sent <= old(sent) + "event: HEARTBEAT\ndata: {}\n\n"
      ensures ok <==> |"event: HEARTBEAT\ndata: {}\n\n"| <= old(room)
    {
      HeartbeatIs();
      ok := WriteFrame(Frame("", HEARTBEAT_EVENT, "{}"));
    }
  }

  // ---------------------------------------------------------------------------------------
  // The reader.

  datatype Message = Message(event: string, data: string, lastId: string)

  /** The buffers of the standard: data, event type and last event id. */
  datatype Buffers = Buffers(data: string, event: string, lastId: string)

  /** The complete lines of a stream: a line ends with CR LF, with CR or with LF. */
  function Lines(stream: string): seq<string> {
    LinesFrom("", stream)
  }

  function LinesFrom(started: string, stream: string): seq<string>
    decreases |stream|
  {
    if stream == "" then []
    else if stream[0] == '\r' && |stream| > 1 && stream[1] == '\n' then [started] + LinesFrom("", stream[2..])
    else if stream[0] == '\r' || stream[0] == '\n' then [started] + LinesFrom("", stream[1..])
    else LinesFrom(started + [stream[0]], stream[1..])
  }

  /** A line's field name and value. */
  function Parsed(line: string): (string, string) {
    if line == "" then ("", "")
    else if line[0] == ':' then ("", if |line| > 1 && line[1] == ' ' then line[2..] else line[1..])
    else ([line[0]] + Parsed(line[1..]).0, Parsed(line[1..]).1)
  }

  function Process(b: Buffers, name: string, value: string): Buffers {
    if name == "event" then b.(event := value)
    else if name == "data" then b.(data := b.data + value + "\n")
    else if name == "id" then (if '\0' in value then b else b.(lastId := value))
    else b
  }

  function Dispatch(b: Buffers): seq<Message> {
    if b.data == "" then []
    else [Message(if b.event == "" then "message" else b.event,
                  if b.data[|b.data| - 1] == '\n' then b.data[..|b.data| - 1] else b.data,
                  b.lastId)]
  }

  function Interpret(b: Buffers, lines: seq<string>): seq<Message>
    decreases |lines|
  {
    if lines == [] then []
    else if lines[0] == "" then Dispatch(b) + Interpret(Buffers("", "", b.lastId), lines[1..])
    else if lines[0][0] == ':' then Interpret(b, lines[1..])
    else Interpret(Process(b, Parsed(lines[0]).0, Parsed(lines[0]).1), lines[1..])
  }

  /** What a client that has seen `lastId` reads from the stream. */
  function Read(lastId: string, stream: string): seq<Message> {
    var text := if stream != "" && stream[0] == '\U{FEFF}' then stream[1..] else stream;
    Interpret(Buffers("", "", lastId), Lines(text))
  }

  // ---------------------------------------------------------------------------------------
  // That the reader follows the standard, also where the writer does not lead it.

  /** All three line ends are the same to it. */
  lemma {:induction false} AnyLineEnd(started: string, line: string, rest: string)
    requires OneLine(line)
    ensures LinesFrom(started, line + "\r\n" + rest) == [started + line] + Lines(rest)
    ensures LinesFrom(started, line + "\n" + rest) == [started + line] + Lines(rest)
    ensures rest == "" || rest[0] != '\n' ==> LinesFrom(started, line + "\r" + rest) == [started + line] + Lines(rest)
    decreases |line|
  {
    var crlf, lf, cr := line + "\r\n" + rest, line + "\n" + rest, line + "\r" + rest;
    if line == "" {
      assert crlf[2..] == rest && lf[1..] == rest && cr[1..] == rest && started + line == started;
    } else {
      assert crlf[1..] == line[1..] + "\r\n" + rest && lf[1..] == line[1..] + "\n" + rest
        && cr[1..] == line[1..] + "\r" + rest;
      AnyLineEnd(started + [line[0]], line[1..], rest);
      assert started + [line[0]] + line[1..] == started + line;
    }
  }

  /** A line that starts with a colon is a comment; one space after the colon of a field is not part of its
      value; a line without a colon is a field without a value. */
  lemma {:induction false} LineMeans(b: Buffers, line: string, name: string, value: string, rest: seq<string>)
    requires ':' !in name
    ensures line == ":" + value ==> Interpret(b, [line] + rest) == Interpret(b, rest)
    ensures name != "" && line == name + ": " + value ==>
      Interpret(b, [line] + rest) == Interpret(Process(b, name, value), rest)
    ensures name != "" && (value == "" || value[0] != ' ') && line == name + ":" + value ==>
      Interpret(b, [line] + rest) == Interpret(Process(b, name, value), rest)
    ensures name != "" && line == name ==> Interpret(b, [line] + rest) == Interpret(Process(b, name, ""), rest)
  {
    assert ([line] + rest)[1..] == rest;
    ParsedIs(name, value);
  }

  lemma {:induction false} ParsedIs(name: string, value: string)
    requires ':' !in name
    ensures Parsed(name + ": " + value) == (name, value)
    ensures value == "" || value[0] != ' ' ==> Parsed(name + ":" + value) == (name, value)
    ensures Parsed(name) == (name, "")
  {
    if name == "" {
      assert (name + ": " + value)[2..] == value && (name + ":" + value)[1..] == value;
    } else {
      assert (name + ": " + value)[1..] == name[1..] + ": " + value
        && (name + ":" + value)[1..] == name[1..] + ":" + value;
      ParsedIs(name[1..], value);
      assert [name[0]] + name[1..] == name;
    }
  }

  /** Fields of other names change nothing, nor does an id with a NUL; data lines add up. */
  lemma FieldMeans(b: Buffers, name: string, value: string)
    ensures Process(b, "event", value) == Buffers(b.data, value, b.lastId)
    ensures Process(b, "data", value) == Buffers(b.data + value + "\n", b.event, b.lastId)
    ensures Process(b, "id", value) == if '\0' in value then b else Buffers(b.data, b.event, value)
    ensures name != "event" && name != "data" && name != "id" ==> Process(b, name, value) == b
  {
  }

  /** A blank line delivers what there is, if there are data, and forgets the event but not the id; one byte
      order mark in front is not part of the stream. */
  lemma {:induction false} StreamMeans(b: Buffers, lastId: string, stream: string, rest: seq<string>)
    ensures Interpret(b, [""] + rest)
      == (if b.data == "" then []
          else [Message(if b.event == "" then "message" else b.event,
                        if b.data[|b.data| - 1] == '\n' then b.data[..|b.data| - 1] else b.data, b.lastId)])
         + Interpret(Buffers("", "", b.lastId), rest)
    ensures Read(lastId, ['\U{FEFF}'] + stream) == Interpret(Buffers("", "", lastId), Lines(stream))
    ensures stream == "" || stream[0] != '\U{FEFF}' ==>
      Read(lastId, stream) == Interpret(Buffers("", "", lastId), Lines(stream))
  {
    assert ([""] + rest)[1..] == rest;
    assert (['\U{FEFF}'] + stream)[1..] == stream;
  }

  // ---------------------------------------------------------------------------------------
  // The round trip.

  predicate OneLine(s: string) {
    '\r' !in s && '\n' !in s
  }

  predicate ReadableId(id: string) {
    OneLine(id) && '\0' !in id
  }

  /** What the wire format can carry. */
  predicate Carried(frame: Frame) {
    ReadableId(frame.id) && OneLine(frame.event) && '\r' !in frame.data
  }

  function MessageOf(lastId: string, frame: Frame): Message {
    Message(if frame.event == "" then "message" else frame.event, DataOf(frame),
      if frame.id == "" then lastId else frame.id)
  }

  function MessagesOf(lastId: string, frames: seq<Frame>): seq<Message>
    decreases frames
  {
    if frames == [] then []
    else [MessageOf(lastId, frames[0])] + MessagesOf(MessageOf(lastId, frames[0]).lastId, frames[1..])
  }

  /** A field the writer sends becomes one line that the reader processes. */
  lemma {:induction false} FieldIsProcessed(b: Buffers, name: string, value: string, rest: string)
    requires name != "" && OneLine(name) && ':' !in name && OneLine(value)
    ensures Interpret(b, Lines(name + ": " + value + "\n" + rest)) == Interpret(Process(b, name, value), Lines(rest))
  {
    var line := name + ": " + value;
    AnyLineEnd("", line, rest);
    ParsedIs(name, value);
    assert "" + line == line;
    assert ([line] + Lines(rest))[1..] == Lines(rest);
  }

  function Buffered(lines: seq<string>): string {
    if lines == [] then "" else lines[0] + "\n" + Buffered(lines[1..])
  }

  lemma {:induction false} DataLineFirst(lines: seq<string>, rest: string)
    requires lines != []
    ensures DataLines(lines) + rest == "data" + ": " + lines[0] + "\n" + (DataLines(lines[1..]) + rest)
  {
    assert "data" + ": " == "data: ";
  }

  lemma {:induction false} DataLineIsRead(b: Buffers, line: string, rest: string)
    requires OneLine(line)
    ensures Interpret(b, Lines("data" + ": " + line + "\n" + rest))
      == Interpret(b.(data := b.data + line + "\n"), Lines(rest))
  {
    FieldIsProcessed(b, "data", line, rest);
  }

  lemma {:induction false} BufferedFirst(data: string, lines: seq<string>)
    requires lines != []
    ensures data + lines[0] + "\n" + Buffered(lines[1..]) == data + Buffered(lines)
  {
  }

  lemma {:induction false} DataIsRead(b: Buffers, lines: seq<string>, rest: string)
    requires forall i :: 0 <= i < |lines| ==> OneLine(lines[i])
    ensures Interpret(b, Lines(DataLines(lines) + rest)) == Interpret(b.(data := b.data + Buffered(lines)), Lines(rest))
    decreases |lines|
  {
    if lines == [] {
      assert DataLines(lines) + rest == rest && b.data + "" == b.data;
    } else {
      var more := DataLines(lines[1..]) + rest;
      DataLineFirst(lines, rest);
      DataLineIsRead(b, lines[0], more);
      DataIsRead(b.(data := b.data + lines[0] + "\n"), lines[1..], rest);
      BufferedFirst(b.data, lines);
    }
  }

  /** The lines of the data, each with its line feed: the data and one line feed more. */
  lemma {:induction false} BufferedIsData(data: string)
    ensures Buffered(Text.Split(data, '\n')) == data + "\n"
  {
    var lines := Text.Split(data, '\n');
    if data != "" {
      BufferedIsData(data[1..]);
      var rest := Text.Split(data[1..], '\n');
      if data[0] == '\n' {
        assert lines == [[]] + rest && lines[1..] == rest;
        assert [] + "\n" + (data[1..] + "\n") == data + "\n";
      } else {
        assert lines[1..] == rest[1..];
        assert [data[0]] + rest[0] + "\n" + Buffered(rest[1..]) == [data[0]] + (rest[0] + "\n" + Buffered(rest[1..]));
        assert [data[0]] + (data[1..] + "\n") == data + "\n";
      }
    } else {
      assert lines[1..] == [];
    }
  }

  lemma {:induction false} PartsHaveNoReturn(data: string)
    requires '\r' !in data
    ensures forall i :: 0 <= i < |Text.Split(data, '\n')| ==> OneLine(Text.Split(data, '\n')[i])
  {
    if data != "" {
      PartsHaveNoReturn(data[1..]);
    }
  }

  lemma {:induction false} OptionalFieldIsProcessed(b: Buffers, name: string, value: string, rest: string)
    requires name != "" && OneLine(name) && ':' !in name && OneLine(value)
    ensures Interpret(b, Lines(Field(name, value) + rest))
      == Interpret(if value == "" then b else Process(b, name, value), Lines(rest))
  {
    if value == "" {
      assert Field(name, value) + rest == rest;
    } else {
      FieldIsProcessed(b, name, value, rest);
      assert Field(name, value) + rest == name + ": " + value + "\n" + rest;
    }
  }

  lemma {:induction false} DataIsDispatched(b: Buffers, frame: Frame, rest: string)
    requires b.data == "" && '\r' !in frame.data
    ensures Interpret(b, Lines(EncodedData(frame) + rest))
      == [Message(if b.event == "" then "message" else b.event, DataOf(frame), b.lastId)]
        + Interpret(Buffers("", "", b.lastId), Lines(rest))
  {
    var data := DataOf(frame);
    var lines := Text.Split(data, '\n');
    PartsHaveNoReturn(data);
    DataIsRead(b, lines, "\n" + rest);
    assert EncodedData(frame) + rest == DataLines(lines) + ("\n" + rest);
    BufferedIsData(data);
    AnyLineEnd("", "", rest);
    assert "" + "\n" + rest == "\n" + rest;
    assert b.data + Buffered(lines) == data + "\n";
    assert (data + "\n")[..|data + "\n"| - 1] == data;
    assert ([""] + Lines(rest))[1..] == Lines(rest);
  }

  /** One frame on the wire is one message, whatever follows it. */
  lemma FrameIsRead(lastId: string, frame: Frame, rest: string)
    requires Carried(frame)
    ensures Interpret(Buffers("", "", lastId), Lines(Encoded(frame) + rest))
      == [MessageOf(lastId, frame)] + Interpret(Buffers("", "", MessageOf(lastId, frame).lastId), Lines(rest))
  {
    var b := Buffers("", "", lastId);
    var afterId := if frame.id == "" then b else Process(b, "id", frame.id);
    var afterEvent := if frame.event == "" then afterId else Process(afterId, "event", frame.event);
    var id, event, data := Field("id", frame.id), Field("event", frame.event), EncodedData(frame);
    assert Encoded(frame) + rest == id + (event + (data + rest));
    OptionalFieldIsProcessed(b, "id", frame.id, event + (data + rest));
    OptionalFieldIsProcessed(afterId, "event", frame.event, data + rest);
    DataIsDispatched(afterEvent, frame, rest);
  }

  /** What that message is: empty data are an empty object, and a missing id is the last one. */
  lemma MessageIs(lastId: string, frame: Frame)
    requires Carried(frame) && ReadableId(lastId)
    ensures Read(lastId, Encoded(frame))
      == [Message(if frame.event == "" then "message" else frame.event,
                  if frame.data == "" then "{}" else frame.data,
                  if frame.id == "" then lastId else frame.id)]
  {
    FramesAreRead(lastId, [frame]);
    NoByteOrderMark([frame]);
    assert EncodedAll([frame]) == Encoded(frame) + "";
    assert Encoded(frame) + "" == Encoded(frame);
  }

  lemma {:induction false} FramesAreRead(lastId: string, frames: seq<Frame>)
    requires forall i :: 0 <= i < |frames| ==> Carried(frames[i])
    ensures Interpret(Buffers("", "", lastId), Lines(EncodedAll(frames))) == MessagesOf(lastId, frames)
    decreases frames
  {
    if frames != [] {
      FrameIsRead(lastId, frames[0], EncodedAll(frames[1..]));
      FramesAreRead(MessageOf(lastId, frames[0]).lastId, frames[1..]);
    }
  }

  lemma {:induction false} NoByteOrderMark(frames: seq<Frame>)
    requires frames != []
    ensures EncodedAll(frames) != "" && EncodedAll(frames)[0] in {'i', 'e', 'd'}
  {
    var lines := Text.Split(DataOf(frames[0]), '\n');
    assert DataLines(lines)[0] == 'd';
    assert EncodedData(frames[0])[0] == 'd';
  }

  // ---------------------------------------------------------------------------------------
  // Nothing else can be carried.

  /** No message a reader ever delivers has a line break in its event or id, a NUL in its id, or a
      carriage return in its data. */
  predicate Deliverable(m: Message) {
    OneLine(m.event) && '\r' !in m.data && ReadableId(m.lastId)
  }

  lemma {:induction false} LinesAreLines(started: string, stream: string)
    requires OneLine(started)
    ensures forall i :: 0 <= i < |LinesFrom(started, stream)| ==> OneLine(LinesFrom(started, stream)[i])
    decreases |stream|
  {
    if stream == "" {
    } else if stream[0] == '\r' && |stream| > 1 && stream[1] == '\n' {
      LinesAreLines("", stream[2..]);
    } else if stream[0] == '\r' || stream[0] == '\n' {
      LinesAreLines("", stream[1..]);
    } else {
      LinesAreLines(started + [stream[0]], stream[1..]);
    }
  }

  lemma {:induction false} ValueIsOneLine(line: string)
    requires OneLine(line)
    ensures OneLine(Parsed(line).1)
  {
    if line != "" && line[0] != ':' {
      ValueIsOneLine(line[1..]);
    }
  }

  lemma {:induction false} MessagesAreDeliverable(b: Buffers, lines: seq<string>)
    requires OneLine(b.event) && '\r' !in b.data && ReadableId(b.lastId)
    requires forall i :: 0 <= i < |lines| ==> OneLine(lines[i])
    ensures forall i :: 0 <= i < |Interpret(b, lines)| ==> Deliverable(Interpret(b, lines)[i])
    decreases |lines|
  {
    if lines != [] {
      if lines[0] == "" {
        MessagesAreDeliverable(Buffers("", "", b.lastId), lines[1..]);
      } else if lines[0][0] == ':' {
        MessagesAreDeliverable(b, lines[1..]);
      } else {
        ValueIsOneLine(lines[0]);
        MessagesAreDeliverable(Process(b, Parsed(lines[0]).0, Parsed(lines[0]).1), lines[1..]);
      }
    }
  }

  lemma {:induction false} DeliverableFramesAreCarried(lastId: string, frames: seq<Frame>)
    requires forall i :: 0 <= i < |MessagesOf(lastId, frames)| ==> Deliverable(MessagesOf(lastId, frames)[i])
    ensures forall i :: 0 <= i < |frames| ==> Carried(frames[i])
    decreases frames
  {
    if frames != [] {
      var next, rest :=
        MessageOf(lastId, frames[0]).lastId, MessagesOf(MessageOf(lastId, frames[0]).lastId, frames[1..]);
      assert Deliverable(MessagesOf(lastId, frames)[0]);
      forall i | 0 <= i < |rest| ensures Deliverable(rest[i]) {
        assert MessagesOf(lastId, frames)[i + 1] == rest[i];
      }
      DeliverableFramesAreCarried(next, frames[1..]);
      assert Carried(frames[0]);
      assert forall i :: 0 < i < |frames| ==> frames[i] == frames[1..][i - 1];
    }
  }

  /** The round trip, exactly: the client reads back the frames that were written (empty data as
      an empty object, a missing id as the last one) if and only if the data have no carriage
      return, the ids and events no line break, and the ids no NUL. */
  lemma {:induction false} RoundTrip(lastId: string, frames: seq<Frame>)
    requires ReadableId(lastId)
    ensures Read(lastId, EncodedAll(frames)) == MessagesOf(lastId, frames) <==>
      forall i :: 0 <= i < |frames| ==> Carried(frames[i])
  {
    if frames != [] {
      NoByteOrderMark(frames);
    }
    if forall i :: 0 <= i < |frames| ==> Carried(frames[i]) {
      FramesAreRead(lastId, frames);
    } else if Read(lastId, EncodedAll(frames)) == MessagesOf(lastId, frames) {
      LinesAreLines("", EncodedAll(frames));
      MessagesAreDeliverable(Buffers("", "", lastId), Lines(EncodedAll(frames)));
      DeliverableFramesAreCarried(lastId, frames);
    }
  }
}
