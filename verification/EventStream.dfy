/**
 * Server-sent events between handler/sse_hub.go, handler/sse.go and the
 * watcher of plugin/src/approval-watcher.ts.
 *
 * The server prints frames; the network cuts the text anywhere; the watcher
 * keeps a growing buffer, splits it at blank lines and reads the fields of
 * each complete message.
 */
module EventStream {
  import opened Sequences

  datatype Frame =
    | Event(kind: string, data: string)
    | Connected
    | Heartbeat

  /** What the watcher reads from one message; a comment leaves both empty. */
  datatype Message = Message(kind: string, data: string)

  const EVENT_FIELD := "event: "
  const DATA_FIELD := "data: "

  // ---- The printer ----

  function Body(f: Frame): (r: string)
  {
    match f
    case Event(kind, data) => EVENT_FIELD + kind + "\n" + (DATA_FIELD + data)
    case Connected => ": connected"
    case Heartbeat => ": heartbeat"
  }

  function Print(f: Frame): (r: string) { Body(f) + "\n\n" }

  function PrintAll(frames: seq<Frame>): (r: string)
  {
    if frames == [] then "" else Print(frames[0]) + PrintAll(frames[1..])
  }

  // ---- The reader ----

  /** `split("\n\n")`: cut at the leftmost blank line, then go on after it. */
  function Split(s: string): (r: seq<string>)
    ensures r != []
  {
    if s == "" then [""]
    else if |s| >= 2 && s[0] == '\n' && s[1] == '\n' then [""] + Split(s[2..])
    else
      var rest := Split(s[1..]);
      [[s[0]] + rest[0]] + rest[1..]
  }

  /** `split("\n")`. */
  function Lines(s: string): (r: seq<string>)
    ensures r != []
  {
    if s == "" then [""]
    else if s[0] == '\n' then [""] + Lines(s[1..])
    else
      var rest := Lines(s[1..]);
      [[s[0]] + rest[0]] + rest[1..]
  }

  /** The characters `trim()` removes. */
  predicate IsSpace(c: char)
  {
    var n := c as int;
    9 <= n <= 13 || n == 0x20 || n == 0xA0 || n == 0x1680 || 0x2000 <= n <= 0x200A
    || n == 0x2028 || n == 0x2029 || n == 0x202F || n == 0x205F || n == 0x3000 || n == 0xFEFF
  }

  function Trim(s: string): (r: string)
  {
    if s == "" then ""
    else if IsSpace(s[0]) then Trim(s[1..])
    else if IsSpace(s[|s| - 1]) then Trim(s[..|s| - 1])
    else s
  }

  predicate StartsWith(s: string, prefix: string)
  {
    |prefix| <= |s| && s[..|prefix|] == prefix
  }

  function Field(m: Message, line: string): (r: Message)
  {
    if StartsWith(line, EVENT_FIELD) then m.(kind := Trim(line[|EVENT_FIELD|..]))
    else if StartsWith(line, DATA_FIELD) then m.(data := Trim(line[|DATA_FIELD|..]))
    else m
  }

  function Fields(lines: seq<string>): (m: Message)
  {
    if lines == [] then Message("", "")
    else Field(Fields(lines[..|lines| - 1]), lines[|lines| - 1])
  }

  /** The messages of a stream; text after the last blank line waits in the buffer. */
  function Messages(stream: string): (r: seq<Message>)
  {
    ReadAll(Split(stream)[..|Split(stream)| - 1])
  }

  function ReadAll(blocks: seq<string>): (r: seq<Message>)
    ensures |r| == |blocks|
    ensures forall i :: 0 <= i < |r| ==> r[i] == Fields(Lines(blocks[i]))
  {
    if blocks == [] then []
    else ReadAll(blocks[..|blocks| - 1]) + [Fields(Lines(blocks[|blocks| - 1]))]
  }

  predicate IsResolution(m: Message) { m.kind == "approval_resolved" && m.data != "" }

  /** The payloads handed on to the approval handler, in order. */
  function Resolutions(messages: seq<Message>): (r: seq<string>)
  {
    if messages == [] then []
    else
      var last := messages[|messages| - 1];
      Resolutions(messages[..|messages| - 1]) + (if IsResolution(last) then [last.data] else [])
  }

  // ---- What a frame says ----

  function Meaning(f: Frame): (m: Message)
  {
    match f
    case Event(kind, data) => Message(kind, data)
    case Connected => Message("", "")
    case Heartbeat => Message("", "")
  }

  function Meanings(frames: seq<Frame>): (r: seq<Message>)
    ensures |r| == |frames|
    ensures forall i :: 0 <= i < |r| ==> r[i] == Meaning(frames[i])
  {
    if frames == [] then [] else [Meaning(frames[0])] + Meanings(frames[1..])
  }

  /** One line, with nothing for `trim()` to remove. */
  predicate Clean(s: string) { '\n' !in s && Trim(s) == s }

  predicate CleanFrame(f: Frame) { f.Event? ==> Clean(f.kind) && Clean(f.data) }

  // ---- Splitting ----

  /** Cutting in one go, or cutting what came first and then the remainder with what follows. */
  ghost predicate Continues(first: seq<string>, b: string, all: seq<string>)
    requires first != []
  {
    all == first[..|first| - 1] + Split(first[|first| - 1] + b)
  }

  lemma {:induction false} SplitAppend(a: string, b: string)
    ensures Continues(Split(a), b, Split(a + b))
  {
    if |Split(a)| == 1 {
      SplitSingle(a);
    } else if |a| >= 2 && a[0] == '\n' && a[1] == '\n' {
      SplitAppend(a[2..], b);
      assert (a + b)[2..] == a[2..] + b;
      ContinuesBlank(Split(a[2..]), b, Split(a[2..] + b));
    } else {
      SplitShort(a);
      assert (a + b)[1..] == a[1..] + b;
      SplitAppend(a[1..], b);
      ContinuesChar(a[0], Split(a[1..]), b, Split(a[1..] + b));
    }
  }

  lemma {:induction false} ContinuesBlank(rest: seq<string>, b: string, all: seq<string>)
    requires rest != [] && Continues(rest, b, all)
    ensures Continues([""] + rest, b, [""] + all)
  {
    var first := [""] + rest;
    assert first[..|first| - 1] == [""] + rest[..|rest| - 1];
    assert first[|first| - 1] == rest[|rest| - 1];
  }

  lemma {:induction false} ContinuesChar(c: char, rest: seq<string>, b: string, all: seq<string>)
    requires |rest| >= 2 && Continues(rest, b, all)
    ensures all != []
    ensures Continues([[c] + rest[0]] + rest[1..], b, [[c] + all[0]] + all[1..])
  {
    var first := [[c] + rest[0]] + rest[1..];
    var tail := Split(rest[|rest| - 1] + b);
    assert first[|first| - 1] == rest[|rest| - 1];
    assert all[0] == rest[0] && all[1..] == rest[1..|rest| - 1] + tail;
    assert first[..|first| - 1] == [[c] + rest[0]] + rest[1..|rest| - 1];
  }

  lemma {:induction false} SplitSingle(a: string)
    requires |Split(a)| == 1
    ensures Split(a) == [a]
  {
    if a != "" && !(|a| >= 2 && a[0] == '\n' && a[1] == '\n') {
      SplitSingle(a[1..]);
      assert [a[0]] + a[1..] == a;
    }
  }

  lemma {:induction false} SplitShort(a: string)
    ensures |Split(a)| == 1 || |a| >= 2
  {
    if |a| == 1 {
      assert a[1..] == "";
    }
  }

  /** No two newlines in a row, and none at the end. */
  predicate Solid(s: string)
  {
    (forall i :: 0 < i < |s| ==> s[i - 1] != '\n' || s[i] != '\n')
    && (s != "" ==> s[|s| - 1] != '\n')
  }

  lemma {:induction false} SplitSolid(body: string, rest: string)
    requires Solid(body)
    ensures Split(body + "\n\n" + rest) == [body] + Split(rest)
  {
    var s := body + "\n\n" + rest;
    if body == "" {
      assert s[2..] == rest;
    } else {
      assert s[1..] == body[1..] + "\n\n" + rest;
      assert Solid(body[1..]);
      SplitSolid(body[1..], rest);
      assert !(s[0] == '\n' && s[1] == '\n') by {
        if |body| >= 2 {
          assert s[0] == body[0] && s[1] == body[1];
        }
      }
      assert [body[0]] + body[1..] == body;
    }
  }

  // ---- Lines and fields ----

  lemma {:induction false} LinesNone(s: string)
    requires '\n' !in s
    ensures Lines(s) == [s]
  {
    if s != "" {
      LinesNone(s[1..]);
      assert [s[0]] + s[1..] == s;
    }
  }

  lemma {:induction false} LinesCut(s: string, rest: string)
    requires '\n' !in s
    ensures Lines(s + "\n" + rest) == [s] + Lines(rest)
  {
    var all := s + "\n" + rest;
    if s == "" {
      assert all[1..] == rest;
    } else {
      assert all[1..] == s[1..] + "\n" + rest;
      LinesCut(s[1..], rest);
      assert [s[0]] + s[1..] == s;
    }
  }

  lemma {:induction false} LineHasNone(s: string, i: nat)
    requires i < |Lines(s)|
    ensures '\n' !in Lines(s)[i]
  {
    if s != "" {
      if i > 0 || s[0] != '\n' {
        LineHasNone(s[1..], if s[0] == '\n' then i - 1 else i);
      }
    }
  }

  lemma {:induction false} TrimClean(s: string)
    requires '\n' !in s
    ensures Clean(Trim(s))
    decreases |s|
  {
    if s != "" {
      if IsSpace(s[0]) {
        TrimClean(s[1..]);
      } else if IsSpace(s[|s| - 1]) {
        TrimClean(s[..|s| - 1]);
      }
    }
  }

  predicate CleanMessage(m: Message) { Clean(m.kind) && Clean(m.data) }

  lemma {:induction false} FieldClean(m: Message, line: string)
    requires CleanMessage(m) && '\n' !in line
    ensures CleanMessage(Field(m, line))
  {
    if StartsWith(line, EVENT_FIELD) {
      TrimClean(line[|EVENT_FIELD|..]);
    } else if StartsWith(line, DATA_FIELD) {
      TrimClean(line[|DATA_FIELD|..]);
    }
  }

  lemma {:induction false} FieldsClean(lines: seq<string>)
    requires forall i :: 0 <= i < |lines| ==> '\n' !in lines[i]
    ensures CleanMessage(Fields(lines))
  {
    if lines != [] {
      FieldsClean(lines[..|lines| - 1]);
      FieldClean(Fields(lines[..|lines| - 1]), lines[|lines| - 1]);
    }
  }

  /** Whatever the stream holds, the reader only reports clean fields. */
  lemma {:induction false} MessagesClean(stream: string, i: nat)
    requires i < |Messages(stream)|
    ensures CleanMessage(Messages(stream)[i])
  {
    var block := Split(stream)[i];
    forall j | 0 <= j < |Lines(block)| ensures '\n' !in Lines(block)[j] {
      LineHasNone(block, j);
    }
    FieldsClean(Lines(block));
  }

  // ---- One frame ----

  lemma {:induction false} FieldsOfTwo(x: string, y: string)
    ensures Fields([x, y]) == Field(Field(Message("", ""), x), y)
  {
    assert [x, y][..1] == [x] && [x][..0] == [];
    assert Fields([x]) == Field(Fields([]), x);
  }

  lemma {:induction false} OtherStart(s: string, prefix: string)
    requires s != "" && prefix != "" && s[0] != prefix[0]
    ensures !StartsWith(s, prefix)
  {
    assert |prefix| <= |s| ==> s[..|prefix|][0] == s[0];
  }

  lemma {:induction false} EventFieldBack(m: Message, kind: string)
    requires Clean(kind)
    ensures Field(m, "event: " + kind) == m.(kind := kind)
  {
    assert (EVENT_FIELD + kind)[|EVENT_FIELD|..] == kind;
    assert (EVENT_FIELD + kind)[..|EVENT_FIELD|] == EVENT_FIELD;
  }

  lemma {:induction false} DataFieldBack(m: Message, data: string)
    requires Clean(data)
    ensures Field(m, "data: " + data) == m.(data := data)
  {
    var line := DATA_FIELD + data;
    assert line[|DATA_FIELD|..] == data;
    assert line[..|DATA_FIELD|] == DATA_FIELD;
    OtherStart(line, EVENT_FIELD);
  }

  lemma {:induction false} CommentIgnored(comment: string)
    requires comment != "" && comment[0] == ':' && '\n' !in comment
    ensures Fields(Lines(comment)) == Message("", "")
  {
    LinesNone(comment);
    assert [comment][..0] == [];
    OtherStart(comment, EVENT_FIELD);
    OtherStart(comment, DATA_FIELD);
  }

  lemma {:induction false} FrameBack(f: Frame)
    requires CleanFrame(f)
    ensures Fields(Lines(Body(f))) == Meaning(f)
  {
    match f
    case Event(kind, data) =>
      var first, second := EVENT_FIELD + kind, DATA_FIELD + data;
      assert '\n' !in EVENT_FIELD && '\n' !in DATA_FIELD;
      LinesCut(first, second);
      LinesNone(second);
      assert [first] + [second] == [first, second];
      FieldsOfTwo(first, second);
      EventFieldBack(Message("", ""), kind);
      DataFieldBack(Message(kind, ""), data);
    case Connected => CommentIgnored(": connected");
    case Heartbeat => CommentIgnored(": heartbeat");
  }

  /** What a clean event looks like on the wire, and that the watcher reads it back. */
  lemma {:induction false} EventOnTheWire(kind: string, data: string)
    requires Clean(kind) && Clean(data)
    ensures Print(Event(kind, data)) == "event: " + kind + "\n" + ("data: " + data) + "\n\n"
    ensures Messages(Print(Event(kind, data))) == [Message(kind, data)]
  {
    var f := Event(kind, data);
    BodySolid(f);
    SplitSolid(Body(f), "");
    assert Body(f) + "\n\n" + "" == Print(f);
    assert ([Body(f)] + [""])[..1] == [Body(f)];
    FrameBack(f);
  }

  lemma {:induction false} TwoLinesSolid(first: string, second: string)
    requires '\n' !in first && '\n' !in second && first != "" && second != ""
    ensures Solid(first + "\n" + second)
  {
    var s := first + "\n" + second;
    assert s[|s| - 1] == second[|second| - 1];
    forall i | 0 < i < |s| ensures s[i - 1] != '\n' || s[i] != '\n' {
      if i <= |first| {
        assert s[i - 1] == first[i - 1];
      } else {
        assert s[i] == second[i - |first| - 1];
      }
    }
  }

  lemma {:induction false} BodySolid(f: Frame)
    requires CleanFrame(f)
    ensures Solid(Body(f))
  {
    match f
    case Event(kind, data) =>
      assert '\n' !in EVENT_FIELD && '\n' !in DATA_FIELD;
      TwoLinesSolid(EVENT_FIELD + kind, DATA_FIELD + data);
    case Connected =>
    case Heartbeat =>
  }

  // ---- Whole streams ----

  function Bodies(frames: seq<Frame>): (r: seq<string>)
    ensures |r| == |frames|
    ensures forall i :: 0 <= i < |r| ==> r[i] == Body(frames[i])
  {
    if frames == [] then [] else [Body(frames[0])] + Bodies(frames[1..])
  }

  lemma {:induction false} SplitPrinted(frames: seq<Frame>)
    requires forall i :: 0 <= i < |frames| ==> CleanFrame(frames[i])
    ensures Split(PrintAll(frames)) == Bodies(frames) + [""]
  {
    if frames != [] {
      SplitPrinted(frames[1..]);
      BodySolid(frames[0]);
      SplitSolid(Body(frames[0]), PrintAll(frames[1..]));
    }
  }

  /**
   * Reading back a printed stream yields exactly the frames' meanings if and
   * only if every event's fields are clean.
   */
  lemma {:induction false} StreamBack(frames: seq<Frame>)
    ensures
      Messages(PrintAll(frames)) == Meanings(frames)
      <==> forall i :: 0 <= i < |frames| ==> CleanFrame(frames[i])
  {
    var got := Messages(PrintAll(frames));
    if forall i :: 0 <= i < |frames| ==> CleanFrame(frames[i]) {
      SplitPrinted(frames);
      assert (Bodies(frames) + [""])[..|frames|] == Bodies(frames);
      forall i | 0 <= i < |frames| ensures got[i] == Meanings(frames)[i] {
        FrameBack(frames[i]);
      }
    }
    if got == Meanings(frames) {
      forall i | 0 <= i < |frames| ensures CleanFrame(frames[i]) {
        MessagesClean(PrintAll(frames), i);
        assert got[i] == Meaning(frames[i]);
      }
    }
  }

  lemma {:induction false} ReadAllAppend(a: seq<string>, b: seq<string>)
    ensures ReadAll(a + b) == ReadAll(a) + ReadAll(b)
  {
  }

  /**
   * A connection that drops anywhere delivers a prefix of what the whole
   * stream would have: nothing is invented from half a frame.
   */
  lemma {:induction false} DroppedStream(received: string, lost: string)
    ensures Messages(received) <= Messages(received + lost)
  {
    SplitAppend(received, lost);
    var first := Split(received);
    var init := first[..|first| - 1];
    var tail := Split(first[|first| - 1] + lost);
    assert Split(received + lost)[..|Split(received + lost)| - 1] == init + tail[..|tail| - 1];
    ReadAllAppend(init, tail[..|tail| - 1]);
  }

  // ---- The watcher's loops ----

  method HandleMessage(raw: string) returns (m: Message)
    ensures m == Fields(Lines(raw))
  {
    m := Message("", "");
    var lines := Lines(raw);
    for i := 0 to |lines|
      invariant m == Fields(lines[..i])
    {
      assert lines[..i + 1][..i] == lines[..i];
      if StartsWith(lines[i], EVENT_FIELD) {
        m := m.(kind := Trim(lines[i][|EVENT_FIELD|..]));
      } else if StartsWith(lines[i], DATA_FIELD) {
        m := m.(data := Trim(lines[i][|DATA_FIELD|..]));
      }
    }
    assert lines[..|lines|] == lines;
  }

  method HandleAll(blocks: seq<string>) returns (messages: seq<Message>)
    ensures messages == ReadAll(blocks)
  {
    messages := [];
    for i := 0 to |blocks|
      invariant messages == ReadAll(blocks[..i])
    {
      var m := HandleMessage(blocks[i]);
      assert blocks[..i + 1][..i] == blocks[..i];
      messages := messages + [m];
    }
    assert blocks[..|blocks|] == blocks;
  }

  /**
   * The buffer loop, over every way of cutting every stream: the messages
   * depend on the text alone, and the buffer holds the unfinished rest.
   */
  method ReadStream(chunks: seq<string>) returns (messages: seq<Message>, buffer: string)
    ensures messages == Messages(Flatten(chunks))
    ensures
      var blocks := Split(Flatten(chunks));
      buffer == blocks[|blocks| - 1]
  {
    buffer, messages := "", [];
    ghost var handled: seq<string> := [];
    for i := 0 to |chunks|
      invariant Holds(handled, buffer, Flatten(chunks[..i]))
      invariant messages == ReadAll(handled)
    {
      assert chunks[..i + 1][..i] == chunks[..i];
      HoldsMore(handled, buffer, Flatten(chunks[..i]), chunks[i]);
      var blocks := Split(buffer + chunks[i]);
      var complete := blocks[..|blocks| - 1];
      buffer := blocks[|blocks| - 1];
      var more := HandleAll(complete);
      ReadAllAppend(handled, complete);
      messages := messages + more;
      handled := handled + complete;
    }
    assert chunks[..|chunks|] == chunks;
    HoldsParts(handled, buffer, Flatten(chunks));
  }

  /** What the loop keeps: the blocks handled and the buffer are the split of the text seen. */
  ghost predicate Holds(handled: seq<string>, buffer: string, seen: string)
  {
    Split(seen) == handled + [buffer]
  }

  lemma {:induction false} HoldsParts(handled: seq<string>, buffer: string, seen: string)
    requires Holds(handled, buffer, seen)
    ensures Split(seen)[..|Split(seen)| - 1] == handled
    ensures Split(seen)[|Split(seen)| - 1] == buffer
  {
  }

  lemma {:induction false} HoldsMore(handled: seq<string>, buffer: string, seen: string, chunk: string)
    requires Holds(handled, buffer, seen)
    ensures
      var blocks := Split(buffer + chunk);
      Holds(handled + blocks[..|blocks| - 1], blocks[|blocks| - 1], seen + chunk)
  {
    SplitAppend(seen, chunk);
    HoldsParts(handled, buffer, seen);
    var blocks := Split(buffer + chunk);
    assert handled + blocks == handled + blocks[..|blocks| - 1] + [blocks[|blocks| - 1]];
  }

  /** The payloads of the frames that announce a resolution, in order. */
  function Announced(frames: seq<Frame>): (r: seq<string>)
  {
    if frames == [] then []
    else if frames[0].Event? && frames[0].kind == "approval_resolved" && frames[0].data != ""
    then [frames[0].data] + Announced(frames[1..])
    else Announced(frames[1..])
  }

  lemma {:induction false} ResolutionsCons(m: Message, rest: seq<Message>)
    ensures Resolutions([m] + rest) == Resolutions([m]) + Resolutions(rest)
  {
    var all := [m] + rest;
    if rest == [] {
      assert all == [m];
    } else {
      ResolutionsCons(m, rest[..|rest| - 1]);
      assert all[..|all| - 1] == [m] + rest[..|rest| - 1];
    }
  }

  lemma {:induction false} AnnouncedIsMeant(frames: seq<Frame>)
    ensures Resolutions(Meanings(frames)) == Announced(frames)
  {
    if frames != [] {
      AnnouncedIsMeant(frames[1..]);
      ResolutionsCons(Meaning(frames[0]), Meanings(frames[1..]));
      assert [Meaning(frames[0])][..0] == [];
    }
  }

  /** A JSON object printed on one line is clean, and so is the event's name. */
  lemma {:induction false} ObjectClean(json: string)
    requires |json| >= 2 && json[0] == '{' && json[|json| - 1] == '}' && '\n' !in json
    ensures CleanFrame(Event("approval_resolved", json))
  {
    EndsClean(json);
    var kind := "approval_resolved";
    assert |kind| == 17 && kind[0] == 'a' && kind[16] == 'd';
    EndsClean(kind);
  }

  lemma {:induction false} EndsClean(s: string)
    requires '\n' !in s && s != "" && !IsSpace(s[0]) && !IsSpace(s[|s| - 1])
    ensures Clean(s)
  {
  }

  /**
   * End to end: frames printed by the server, cut anywhere and possibly lost
   * from some point on, reach the watcher as the same events in the same
   * order; all of them when the whole text arrives.
   */
  method Deliver(frames: seq<Frame>, chunks: seq<string>) returns (resolved: seq<string>)
    requires forall i :: 0 <= i < |frames| ==> CleanFrame(frames[i])
    requires Flatten(chunks) <= PrintAll(frames)
    ensures resolved <= Announced(frames)
    ensures Flatten(chunks) == PrintAll(frames) ==> resolved == Announced(frames)
  {
    AnnouncedIsMeant(frames);
    var messages, buffer := ReadStream(chunks);
    resolved := Select(messages);
    StreamBack(frames);
    ghost var received, sent := Flatten(chunks), PrintAll(frames);
    assert received + sent[|received|..] == sent;
    DroppedStream(received, sent[|received|..]);
    ResolutionsPrefix(Messages(received), Meanings(frames));
  }

  lemma {:induction false} ResolutionsPrefix(some: seq<Message>, all: seq<Message>)
    requires some <= all
    ensures Resolutions(some) <= Resolutions(all)
    decreases |all|
  {
    if |some| < |all| {
      ResolutionsPrefix(some, all[..|all| - 1]);
    } else {
      assert some == all;
    }
  }

  method Select(messages: seq<Message>) returns (resolved: seq<string>)
    ensures resolved == Resolutions(messages)
  {
    resolved := [];
    for i := 0 to |messages|
      invariant resolved == Resolutions(messages[..i])
    {
      assert messages[..i + 1][..i] == messages[..i];
      if messages[i].kind == "approval_resolved" && messages[i].data != "" {
        resolved := resolved + [messages[i].data];
      }
    }
    assert messages[..|messages|] == messages;
  }
}
