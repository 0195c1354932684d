/** What a client sees of a stream of well-formed events: their data, in order, until it asks to stop. */
module SseCalls {
  import opened Common
  import opened Text
  import opened SseStream

  /** A line of an event: a data line with whatever blanks follow the colon, or any other line. */
  datatype EventLine = Data(gap: string, payload: string) | Other(text: string)

  /** The lines of an event and what stands between them. */
  datatype Event = Event(lines: seq<EventLine>, eol: string)

  predicate Solid(payload: string) {
    payload != "" && '\n' !in payload && !IsWhitespace(payload[0]) && !IsWhitespace(payload[|payload| - 1])
  }

  /** Payloads may be empty, but not the first or the last of an event. */
  predicate SolidEnds(payloads: seq<string>) {
    payloads != [] ==> Solid(payloads[0]) && Solid(payloads[|payloads| - 1])
  }

  predicate Gap(gap: string) {
    forall i :: 0 <= i < |gap| ==> IsWhitespace(gap[i]) && gap[i] != '\n'
  }

  predicate ProperLine(line: EventLine) {
    match line
    case Data(gap, payload) => Gap(gap) && (Solid(payload) || (payload == "" && OneLine(gap)))
    case Other(text) => OneLine(text) && !("data:" <= text)
  }

  predicate ProperEvent(event: Event) {
    && (event.eol == "\n" || event.eol == "\r\n")
    && (forall i :: 0 <= i < |event.lines| ==> ProperLine(event.lines[i]))
    && SolidEnds(Payloads(event.lines))
  }

  function LineText(line: EventLine): string {
    match line
    case Data(gap, payload) => "data:" + gap + payload
    case Other(text) => text
  }

  function LineTexts(lines: seq<EventLine>): seq<string> {
    if lines == [] then [] else [LineText(lines[0])] + LineTexts(lines[1..])
  }

  function EventText(event: Event): string {
    Join(LineTexts(event.lines), event.eol)
  }

  function Payloads(lines: seq<EventLine>): seq<string> {
    if lines == [] then []
    else (if lines[0].Data? then [lines[0].payload] else []) + Payloads(lines[1..])
  }

  // ---- the data of one event ----

  lemma LastStays(a: string, b: string)
    requires b != ""
    ensures (a + b)[|a + b| - 1] == b[|b| - 1]
  {
  }

  lemma LineIsOneLine(line: EventLine)
    requires ProperLine(line)
    ensures OneLine(LineText(line))
  {
    if line.Data? {
      if line.payload == "" {
        assert LineText(line) == "data:" + line.gap;
        if line.gap != "" {
          LastStays("data:", line.gap);
        }
      } else {
        LastStays("data:" + line.gap, line.payload);
      }
    }
  }

  lemma {:induction false} TrimGap(gap: string, payload: string)
    requires Gap(gap) && (Solid(payload) || payload == "")
    ensures TrimStart(gap + payload) == payload
    decreases |gap|
  {
    if gap == "" {
      assert gap + payload == payload;
    } else {
      assert (gap + payload)[1..] == gap[1..] + payload;
      TrimGap(gap[1..], payload);
    }
  }

  /** The lines of a text that starts with a line and a line break. */
  lemma FirstLine(line: string, eol: string, rest: string)
    requires OneLine(line) && (eol == "\n" || eol == "\r\n")
    ensures Lines(line + eol + rest) == [line] + Lines(rest)
  {
    var text := line + eol + rest;
    var at := |line| + |eol| - 1;
    assert text[..at] == line + eol[..|eol| - 1];
    FindUnique(text, '\n', at);
    assert text[at + 1..] == rest;
    if eol == "\r\n" {
      assert text[..at] == line + "\r";
    } else {
      assert text[..at] == line;
    }
  }

  lemma LastLine(line: string)
    requires OneLine(line)
    ensures Lines(line) == if line == "" then [] else [line]
  {
  }

  lemma DataLineOf(line: EventLine, rest: seq<string>)
    requires ProperLine(line)
    ensures DataLines([LineText(line)] + rest) == (if line.Data? then [line.payload] else []) + DataLines(rest)
  {
    var text := LineText(line);
    assert ([text] + rest)[1..] == rest;
    if line.Data? {
      assert text[5..] == line.gap + line.payload;
      TrimGap(line.gap, line.payload);
    }
  }

  lemma {:induction false} DataLinesOf(lines: seq<EventLine>, eol: string)
    requires eol == "\n" || eol == "\r\n"
    requires forall i :: 0 <= i < |lines| ==> ProperLine(lines[i])
    ensures DataLines(Lines(Join(LineTexts(lines), eol))) == Payloads(lines)
    decreases |lines|
  {
    hide Lines, DataLines, ProperLine, LineText;
    if lines == [] {
      NoLines();
    } else {
      var first := LineText(lines[0]);
      var texts := LineTexts(lines);
      LineIsOneLine(lines[0]);
      DataLinesOf(lines[1..], eol);
      assert texts[1..] == LineTexts(lines[1..]);
      if |lines| == 1 {
        assert LineTexts(lines[1..]) == [];
        LastLine(first);
        DataLineOf(lines[0], []);
        assert [first] + [] == [first];
        if first == "" {
          EmptyLine(lines[0]);
        }
        NoLines();
      } else {
        FirstLine(first, eol, Join(texts[1..], eol));
        DataLineOf(lines[0], Lines(Join(texts[1..], eol)));
      }
    }
  }

  lemma NoLines()
    ensures Lines("") == [] && DataLines([]) == []
  {
  }

  lemma EmptyLine(line: EventLine)
    requires LineText(line) == ""
    ensures !line.Data?
  {
  }

  lemma {:induction false} JoinEnds(parts: seq<string>)
    requires parts != [] && Solid(parts[|parts| - 1])
    ensures var s := Join(parts, "\n");
            s != "" && !IsWhitespace(s[|s| - 1]) && (Solid(parts[0]) ==> !IsWhitespace(s[0]))
    decreases |parts|
  {
    hide IsWhitespace;
    if |parts| > 1 {
      JoinEnds(parts[1..]);
      JoinStep(parts, "\n");
      LastStays(parts[0] + "\n", Join(parts[1..], "\n"));
    }
  }

  /** The data of an event is its payloads, one to a line; without a data line there is none. */
  lemma EventDataIs(event: Event)
    requires ProperEvent(event)
    ensures EventData(EventText(event)) == Join(Payloads(event.lines), "\n")
    ensures Join(Payloads(event.lines), "\n") == "" <==> Payloads(event.lines) == []
  {
    hide Trim, Solid, Payloads, Join, LineTexts, DataLines, Lines, ProperLine, IsWhitespace;
    var payloads := Payloads(event.lines);
    assert event == Event(event.lines, event.eol);
    DataLinesOf(event.lines, event.eol);
    if payloads != [] {
      JoinEnds(payloads);
      TrimKeeps(Join(payloads, "\n"));
    } else {
      JoinNothing();
      TrimSolid("");
    }
  }

  lemma JoinNothing()
    ensures Join([], "\n") == ""
  {
  }

  // ---- the calls of a whole stream ----

  /** What a client is to be called with: the data of every event that has any. */
  function DataOf(events: seq<Event>): seq<string> {
    if events == [] then []
    else
      var payloads := Payloads(events[0].lines);
      (if payloads == [] then [] else [Join(payloads, "\n")]) + DataOf(events[1..])
  }

  /** The bytes of the events are theirs. */
  ghost predicate Decodes(client: Client, bytes: seq<Bytes>, events: seq<Event>) {
    && |bytes| == |events|
    && forall k :: 0 <= k < |events| ==> ProperEvent(events[k]) && client.decode(bytes[k]) == Some(EventText(events[k]))
  }

  /** The client has answered every call but the last with "go on". */
  ghost predicate GoesOn(client: Client, data: seq<string>, from: nat, to: nat) {
    forall j :: from < j < to && j <= |data| ==> client.react(data[..j]) == Ok(false)
  }

  function Answer(answer: Result<bool, SseError>): Result<Done, SseError> {
    match answer
    case Err(error) => Err(error)
    case Ok(_) => Ok(Done.Done)
  }

  /** How far the calls go: through all the data if the client always goes on, and otherwise up to and including
      the first call that it answers with a stop or an error. */
  ghost predicate CalledWith(client: Client, data: seq<string>, from: nat, stage: Stage) {
    && from <= |stage.calls| <= |data| && stage.calls == data[..|stage.calls|]
    && GoesOn(client, data, from, |stage.calls|)
    && (stage.Running? ==> stage.calls == data && GoesOn(client, data, from, |data| + 1))
    && (stage.Finished? ==>
          && |stage.calls| > from && client.react(stage.calls) != Ok(false)
          && stage.result == Answer(client.react(stage.calls)))
  }

  lemma OneEvent(client: Client, bytes: Bytes, event: Event, calls: seq<string>)
    requires ProperEvent(event) && client.decode(bytes) == Some(EventText(event))
    ensures CalledWith(client, calls + DataOf([event]), |calls|, Process(client, bytes, [], calls))
    ensures Process(client, bytes, [], calls).Running? ==> Process(client, bytes, [], calls).rest == []
  {
    hide EventText, Payloads, Join, ProperEvent, EventData, DataOf, Process, CalledWith;
    EventDataIs(event);
    DataOfOne(event);
    ProcessIs(client, bytes, EventText(event), calls);
    var datum := Join(Payloads(event.lines), "\n");
    if datum == "" {
      assert calls + [] == calls;
      NothingToCall(client, calls);
    } else {
      OneCall(client, calls, datum);
    }
  }

  lemma ProcessIs(client: Client, bytes: Bytes, text: string, calls: seq<string>)
    requires client.decode(bytes) == Some(text)
    ensures var datum := EventData(text);
            var made := calls + [datum];
            Process(client, bytes, [], calls) ==
            if datum == "" then Running([], calls)
            else if client.react(made) == Ok(false) then Running([], made)
            else Finished(Answer(client.react(made)), made)
  {
    hide EventData;
  }

  lemma DataOfOne(event: Event)
    ensures var payloads := Payloads(event.lines);
            DataOf([event]) == if payloads == [] then [] else [Join(payloads, "\n")]
  {
    hide Payloads, Join;
    assert [event][1..] == [];
  }

  lemma NothingToCall(client: Client, calls: seq<string>)
    ensures CalledWith(client, calls, |calls|, Running([], calls))
  {
    assert calls[..|calls|] == calls;
  }

  lemma OneCall(client: Client, calls: seq<string>, datum: string)
    ensures var made := calls + [datum];
            && (client.react(made) == Ok(false) ==> CalledWith(client, made, |calls|, Running([], made)))
            && (client.react(made) != Ok(false) ==>
                  CalledWith(client, made, |calls|, Finished(Answer(client.react(made)), made)))
  {
    var made := calls + [datum];
    assert made[..|made|] == made;
  }

  lemma {:induction false} HandledCalls(client: Client, bytes: seq<Bytes>, events: seq<Event>, rest: Bytes,
                                        calls: seq<string>)
    requires Decodes(client, bytes, events) && NextSseEvent(rest).None?
    ensures var stage := Handled(client, bytes, rest, calls);
            CalledWith(client, calls + DataOf(events), |calls|, stage) && (stage.Running? ==> stage.rest == rest)
    decreases |bytes|
  {
    hide Process, NextSseEvent, CalledWith, GoesOn, DataOf, Decodes;
    DecodesStep(client, bytes, events);
    if events == [] {
      NoEvents(client, rest, calls);
    } else {
      DataStep(events);
      OneEvent(client, bytes[0], events[0], calls);
      var stage := Process(client, bytes[0], [], calls);
      var all := calls + DataOf(events);
      var some := calls + DataOf([events[0]]);
      assert all == some + DataOf(events[1..]);
      PrefixCalls(client, some, all, |calls|, stage);
      if stage.Running? {
        HandledCalls(client, bytes[1..], events[1..], rest, stage.calls);
        ChainCalls(client, all, |calls|, |some|, Handled(client, bytes[1..], rest, stage.calls));
      }
    }
  }

  lemma DecodesStep(client: Client, bytes: seq<Bytes>, events: seq<Event>)
    requires Decodes(client, bytes, events)
    ensures |bytes| == |events|
    ensures events != [] ==>
              && ProperEvent(events[0]) && client.decode(bytes[0]) == Some(EventText(events[0]))
              && Decodes(client, bytes[1..], events[1..])
  {
    hide ProperEvent, EventText;
  }

  lemma NoEvents(client: Client, rest: Bytes, calls: seq<string>)
    requires NextSseEvent(rest).None?
    ensures Drained(client, rest, calls) == Running(rest, calls)
    ensures CalledWith(client, calls + DataOf([]), |calls|, Running(rest, calls))
  {
    hide NextSseEvent;
    assert calls + DataOf([]) == calls;
  }

  lemma DataStep(events: seq<Event>)
    requires events != []
    ensures DataOf(events) == DataOf([events[0]]) + DataOf(events[1..])
  {
    assert [events[0]][1..] == [];
  }

  lemma PrefixCalls(client: Client, some: seq<string>, all: seq<string>, from: nat, stage: Stage)
    requires some <= all && CalledWith(client, some, from, stage)
    ensures stage.Finished? ==> CalledWith(client, all, from, stage)
    ensures stage.Running? ==> stage.calls == some && GoesOn(client, all, from, |some| + 1)
  {
    assert forall j :: 0 <= j <= |some| ==> some[..j] == all[..j];
  }

  lemma ChainCalls(client: Client, data: seq<string>, from: nat, mid: nat, stage: Stage)
    requires from <= mid <= |data| && GoesOn(client, data, from, mid + 1) && CalledWith(client, data, mid, stage)
    ensures CalledWith(client, data, from, stage)
  {
  }

  lemma NoneStops(client: Client, data: seq<string>, stage: Stage)
    requires CalledWith(client, data, 0, stage) && GoesOn(client, data, 0, |data| + 1)
    ensures stage.Running?
  {
    assert forall j :: 0 < j <= |data| ==> client.react(data[..j]) == Ok(false);
  }

  /** The frames hold these events. */
  ghost predicate Stream(client: Client, frames: seq<Frame>, events: seq<Event>) {
    && (forall frame :: frame in frames ==> BlankLine(frame.1) && Sendable(frame.0, frame.1))
    && Decodes(client, EventsOf(frames), events)
  }

  /** The calls for a framed stream are the data of its events in order, up to and including the first that the client
      answers with a stop or an error; that answer is the outcome. If there is none, all are made, and the outcome is
      how the stream ended. */
  lemma CallsAreTheData(client: Client, frames: seq<Frame>, events: seq<Event>, end: StreamEnd)
    requires Stream(client, frames, events)
    ensures var (result, calls) := Meaning(client, Frames(frames), end);
            var data := DataOf(events);
            && calls <= data && GoesOn(client, data, 0, |calls|)
            && (if calls != [] && client.react(calls) != Ok(false) then result == Answer(client.react(calls))
                else calls == data && result == if end == Failed then Err(ReadFailed) else Ok(Done.Done))
  {
    hide NextSseEvent, Sendable, Decodes, Process;
    assert Frames(frames) + [] == Frames(frames);
    assert [] + DataOf(events) == DataOf(events);
    NothingFollows();
    FramesAreRead(client, frames, [], []);
    HandledCalls(client, EventsOf(frames), events, [], []);
    var stage := Handled(client, EventsOf(frames), [], []);
    if stage.Running? && stage.calls != [] {
      assert stage.calls == DataOf(events)[..|stage.calls|];
    }
  }

  lemma NothingFollows()
    ensures NextSseEvent([]).None?
  {
    var empty: Bytes := [];
    if NextSseEvent(empty).Some? {
      EventWithin(empty);
    }
  }

  /** A last event that no blank line ends is called with when the stream closes, and dropped when it fails or is
      stopped; the answer counts only if it is an error. */
  lemma LastEventIsRead(client: Client, frames: seq<Frame>, events: seq<Event>, rest: Bytes, last: Event,
                        end: StreamEnd)
    requires Stream(client, frames, events) && GoesOn(client, DataOf(events), 0, |DataOf(events)| + 1)
    requires NextSseEvent(rest).None? && exists i :: 0 <= i < |rest| && !AsciiWhitespace(rest[i])
    requires ProperEvent(last) && client.decode(rest) == Some(EventText(last))
    ensures var data := DataOf(events);
            var payloads := Payloads(last.lines);
            Meaning(client, Frames(frames) + rest, end) ==
            if end == Failed then (Err(ReadFailed), data)
            else if end == Stopped || payloads == [] then (Ok(Done.Done), data)
            else (Answer(client.react(data + [Join(payloads, "\n")])), data + [Join(payloads, "\n")])
  {
    hide NextSseEvent, Sendable, Decodes, EventData, EventText, Payloads, Join, ProperEvent;
    assert [] + DataOf(events) == DataOf(events);
    FramesAreRead(client, frames, rest, []);
    HandledCalls(client, EventsOf(frames), events, rest, []);
    var stage := Handled(client, EventsOf(frames), rest, []);
    NoneStops(client, DataOf(events), stage);
    EventDataIs(last);
  }

  /** An event that is no UTF-8 ends the run with the calls made so far. */
  lemma InvalidEventEnds(client: Client, frames: seq<Frame>, events: seq<Event>, bad: Frame, rest: Bytes,
                         end: StreamEnd)
    requires Stream(client, frames, events) && GoesOn(client, DataOf(events), 0, |DataOf(events)| + 1)
    requires BlankLine(bad.1) && Sendable(bad.0, bad.1) && client.decode(bad.0).None?
    ensures Meaning(client, Frames(frames) + (bad.0 + bad.1 + rest), end) == (Err(InvalidUtf8), DataOf(events))
  {
    hide NextSseEvent, Sendable, Decodes, EventData;
    var tail := bad.0 + bad.1 + rest;
    assert [] + DataOf(events) == DataOf(events);
    NothingFollows();
    assert Frames(frames) + [] == Frames(frames);
    FramesAreRead(client, frames, [], []);
    HandledCalls(client, EventsOf(frames), events, [], []);
    var stage := Handled(client, EventsOf(frames), [], []);
    NoneStops(client, DataOf(events), stage);
    DrainedAppend(client, Frames(frames), tail, []);
    assert [] + tail == tail;
    SendableExactly(bad.0, bad.1);
    EventStays(bad.0 + bad.1, rest);
    DrainedStep(client, tail, DataOf(events));
  }
}
