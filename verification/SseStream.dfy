/** The server-sent-event reader: it must not matter how the bytes were cut into chunks. */
module SseStream {
  import opened Common
  import opened Text

  type Bytes = seq<bv8>

  const LF: bv8 := 10
  const CR: bv8 := 13
  const LF_LF: Bytes := [LF, LF]
  const CRLF_CRLF: Bytes := [CR, LF, CR, LF]

  predicate Occurs(buffer: Bytes, needle: Bytes, at: nat) {
    at + |needle| <= |buffer| && buffer[at..at + |needle|] == needle
  }

  /** `find_bytes`. */
  function FindBytes(buffer: Bytes, needle: Bytes): (r: Option<nat>)
    ensures needle == [] ==> r.None?
    ensures r.Some? ==> Occurs(buffer, needle, r.value) && forall i: nat :: i < r.value ==> !Occurs(buffer, needle, i)
    ensures needle != [] && r.None? ==> forall i: nat :: !Occurs(buffer, needle, i)
  {
    if needle == [] || |buffer| < |needle| then None else FindWindow(buffer, needle, 0)
  }

  /** The first window from position `from` on that equals the needle. */
  function FindWindow(buffer: Bytes, needle: Bytes, from: nat): (r: Option<nat>)
    ensures r.Some? ==> Occurs(buffer, needle, r.value) && from <= r.value
    ensures r.Some? ==> forall i: nat :: from <= i < r.value ==> !Occurs(buffer, needle, i)
    ensures r.None? ==> forall i: nat :: from <= i ==> !Occurs(buffer, needle, i)
    decreases |buffer| - from
  {
    if from + |needle| > |buffer| then None
    else if Occurs(buffer, needle, from) then Some(from)
    else FindWindow(buffer, needle, from + 1)
  }

  /** The width of the delimiter at a position, or 0. */
  function Delimiter(buffer: Bytes, at: nat): nat {
    if Occurs(buffer, LF_LF, at) then 2 else if Occurs(buffer, CRLF_CRLF, at) then 4 else 0
  }

  /** `next_sse_event`: everything before the first blank line, and where to go on after it. */
  function NextSseEvent(buffer: Bytes): (r: Option<(Bytes, nat)>)
    ensures r.Some? ==>
              && |r.value.0| < r.value.1 <= |buffer| && r.value.0 == buffer[..|r.value.0|]
              && r.value.1 == |r.value.0| + Delimiter(buffer, |r.value.0|)
              && forall i: nat :: i < |r.value.0| ==> Delimiter(buffer, i) == 0
    ensures r.None? ==> forall i: nat :: Delimiter(buffer, i) == 0
  {
    var lf := FindBytes(buffer, LF_LF);
    var crlf := FindBytes(buffer, CRLF_CRLF);
    if lf.Some? && (crlf.None? || lf.value <= crlf.value) then Some((buffer[..lf.value], lf.value + 2))
    else if crlf.Some? then Some((buffer[..crlf.value], crlf.value + 4))
    else None
  }

  /** More bytes leave the delimiters that were there in place. */
  lemma DelimiterStays(buffer: Bytes, more: Bytes, at: nat)
    requires Delimiter(buffer, at) > 0
    ensures Delimiter(buffer + more, at) == Delimiter(buffer, at)
  {
    var all := buffer + more;
    assert at + 2 <= |buffer|;
    assert all[at..at + 2] == buffer[at..at + 2];
    if at + 4 <= |buffer| {
      assert all[at..at + 4] == buffer[at..at + 4];
    }
    if Delimiter(buffer, at) == 4 {
      assert buffer[at..at + 4][0] == buffer[at..at + 2][0];
    }
  }

  /** More bytes add no delimiter in front of one that was there. */
  lemma NoEarlierDelimiter(buffer: Bytes, more: Bytes, at: nat, first: nat)
    requires at < first && Delimiter(buffer, at) == 0 && Delimiter(buffer, first) > 0
    ensures Delimiter(buffer + more, at) == 0
  {
    var all := buffer + more;
    assert first + 2 <= |buffer|;
    assert all[at..at + 2] == buffer[at..at + 2];
    if at + 4 <= |buffer| {
      assert all[at..at + 4] == buffer[at..at + 4];
    } else {
      assert first == at + 1 && |buffer| == at + 3;
      assert Occurs(buffer, LF_LF, first);
      assert buffer[first..first + 2][1] == all[at + 2];
      assert at + 4 <= |all| ==> all[at..at + 4][2] == all[at + 2];
    }
  }

  /** Appending bytes never changes an event that was already found. */
  lemma EventStays(buffer: Bytes, more: Bytes)
    requires NextSseEvent(buffer).Some?
    ensures NextSseEvent(buffer + more) == NextSseEvent(buffer)
  {
    hide Delimiter;
    var (event, to) := NextSseEvent(buffer).value;
    var all := buffer + more;
    DelimiterStays(buffer, more, |event|);
    forall i: nat | i < |event| ensures Delimiter(all, i) == 0 {
      NoEarlierDelimiter(buffer, more, i, |event|);
    }
    assert NextSseEvent(all).Some?;
    var (event', to') := NextSseEvent(all).value;
    assert |event'| == |event|;
    assert all[..|event|] == buffer[..|event|];
  }

  // ---- one event ----

  datatype SseError = InvalidUtf8 | ReadFailed | Rejected(reason: string)

  /** What the reader is given: the UTF-8 decoder, and the callback as a function of the calls made so far,
      the current one last. */
  datatype Client = Client(
    decode: Bytes -> Option<string>,
    react: seq<string> -> Result<bool, SseError>)

  const DATA_PREFIX := "data:"

  function DataLines(lines: seq<string>): seq<string> {
    if lines == [] then []
    else (if DATA_PREFIX <= lines[0] then [TrimStart(lines[0][|DATA_PREFIX|..])] else []) + DataLines(lines[1..])
  }

  /** The data of an event: its data lines, joined. */
  function EventData(event: string): string {
    Trim(Join(DataLines(Lines(event)), "\n"))
  }

  datatype Stage =
    | Running(rest: Bytes, calls: seq<string>)
    | Finished(result: Result<Done, SseError>, calls: seq<string>)

  /** `from_utf8` and `process_sse_event`; an event without data makes no call. */
  function Process(client: Client, event: Bytes, rest: Bytes, calls: seq<string>): Stage {
    var text := client.decode(event);
    if text.None? then Finished(Err(InvalidUtf8), calls)
    else if EventData(text.value) == "" then Running(rest, calls)
    else
      var made := calls + [EventData(text.value)];
      match client.react(made)
      case Err(error) => Finished(Err(error), made)
      case Ok(true) => Finished(Ok(Done.Done), made)
      case Ok(false) => Running(rest, made)
  }

  lemma ProcessKeepsRest(client: Client, event: Bytes, rest: Bytes, other: Bytes, calls: seq<string>)
    ensures Process(client, event, other, calls) ==
            var p := Process(client, event, rest, calls); if p.Running? then p.(rest := other) else p
    ensures Process(client, event, rest, calls).Running? ==> Process(client, event, rest, calls).rest == rest
  {
    hide EventData;
  }

  /** All complete events of a buffer, in order, until one ends the run. */
  function Drained(client: Client, buffer: Bytes, calls: seq<string>): Stage
    decreases |buffer|
  {
    var next := NextSseEvent(buffer);
    if next.None? then Running(buffer, calls)
    else
      var stage := Process(client, next.value.0, buffer[next.value.1..], calls);
      if stage.Running? then Drained(client, buffer[next.value.1..], stage.calls) else stage
  }

  /** Draining early and draining later come to the same. */
  lemma {:induction false} DrainedAppend(client: Client, buffer: Bytes, more: Bytes, calls: seq<string>)
    ensures Drained(client, buffer + more, calls) ==
            var stage := Drained(client, buffer, calls);
            if stage.Running? then Drained(client, stage.rest + more, stage.calls) else stage
    decreases |buffer|
  {
    hide Process, NextSseEvent;
    var next := NextSseEvent(buffer);
    if next.Some? {
      EventWithin(buffer);
      EventStays(buffer, more);
      var (event, to) := next.value;
      var rest := buffer[to..];
      assert (buffer + more)[to..] == rest + more;
      ProcessKeepsRest(client, event, rest, rest + more, calls);
      var stage := Process(client, event, rest, calls);
      if stage.Running? {
        DrainedAppend(client, rest, more, stage.calls);
      }
    }
  }

  lemma EventWithin(buffer: Bytes)
    requires NextSseEvent(buffer).Some?
    ensures 0 < NextSseEvent(buffer).value.1 <= |buffer|
  {
  }

  // ---- the whole stream ----

  /** How the stream goes on after the chunks that were read: it ends, reading fails, or the stop flag is seen
      when one more chunk arrives. */
  datatype StreamEnd = Closed | Failed | Stopped

  predicate AsciiWhitespace(b: bv8) {
    b == 9 || b == LF || b == 12 || b == CR || b == 32
  }

  /** The end of a run in which no event asked to stop. A last event needs no blank line. */
  function Closing(client: Client, rest: Bytes, calls: seq<string>,
                   end: StreamEnd): (Result<Done, SseError>, seq<string>)
  {
    if end == Failed then (Err(ReadFailed), calls)
    else if end == Stopped || forall i :: 0 <= i < |rest| ==> AsciiWhitespace(rest[i]) then (Ok(Done.Done), calls)
    else
      var last := Process(client, rest, [], calls);
      (if last.Running? then Ok(Done.Done) else last.result, last.calls)
  }

  /** The meaning of a byte stream: the outcome and the calls of `on_data`. */
  function Meaning(client: Client, stream: Bytes, end: StreamEnd): (Result<Done, SseError>, seq<string>) {
    match Drained(client, stream, [])
    case Finished(result, calls) => (result, calls)
    case Running(rest, calls) => Closing(client, rest, calls, end)
  }

  function Concat(chunks: seq<Bytes>): Bytes {
    if chunks == [] then [] else Concat(chunks[..|chunks| - 1]) + chunks[|chunks| - 1]
  }

  lemma ConcatStep(chunks: seq<Bytes>, i: nat)
    requires i < |chunks|
    ensures Concat(chunks[..i + 1]) == Concat(chunks[..i]) + chunks[i]
  {
    assert chunks[..i + 1][..i] == chunks[..i];
  }

  /** Once a run has finished, later chunks change nothing. */
  lemma {:induction false} FinishedStays(client: Client, chunks: seq<Bytes>, i: nat)
    requires i <= |chunks| && Drained(client, Concat(chunks[..i]), []).Finished?
    ensures Drained(client, Concat(chunks), []) == Drained(client, Concat(chunks[..i]), [])
    decreases |chunks| - i
  {
    hide Drained, Concat;
    if i < |chunks| {
      ConcatStep(chunks, i);
      DrainedAppend(client, Concat(chunks[..i]), chunks[i], []);
      FinishedStays(client, chunks, i + 1);
    } else {
      assert chunks[..i] == chunks;
    }
  }

  /** `read_sse_events`. Chunk independence: for every way of cutting a stream into chunks the outcome and the
      calls are the meaning of the uncut stream. */
  method ReadSseEvents(client: Client, chunks: seq<Bytes>, end: StreamEnd)
    returns (result: Result<Done, SseError>, calls: seq<string>)
    ensures (result, calls) == Meaning(client, Concat(chunks), end)
  {
    hide Process, NextSseEvent, Drained, Concat;
    var buffer: Bytes := [];
    calls := [];
    NothingRead(client);
    assert chunks[..0] == [];
    for n := 0 to |chunks|
      invariant Drained(client, Concat(chunks[..n]), []) == Running(buffer, calls)
    {
      ConcatStep(chunks, n);
      DrainedAppend(client, Concat(chunks[..n]), chunks[n], []);
      buffer := buffer + chunks[n];
      ghost var reached := Drained(client, Concat(chunks[..n + 1]), []);
      while true
        invariant reached == Drained(client, buffer, calls)
        decreases |buffer|
      {
        DrainedStep(client, buffer, calls);
        var next := NextSseEvent(buffer);
        if next.None? {
          break;
        }
        EventWithin(buffer);
        var (event, drainTo) := next.value;
        var stage := Process(client, event, buffer[drainTo..], calls);
        ProcessKeepsRest(client, event, buffer[drainTo..], [], calls);
        calls := stage.calls;
        if stage.Finished? {
          FinishedStays(client, chunks, n + 1);
          result := stage.result;
          return;
        }
        buffer := buffer[drainTo..];
      }
    }
    assert chunks[..|chunks|] == chunks;
    result, calls := Closing(client, buffer, calls, end).0, Closing(client, buffer, calls, end).1;
  }

  lemma NothingRead(client: Client)
    ensures Concat([]) == [] && Drained(client, [], []) == Running([], [])
  {
    var empty: Bytes := [];
    if NextSseEvent(empty).Some? {
      EventWithin(empty);
    }
  }

  lemma DrainedStep(client: Client, buffer: Bytes, calls: seq<string>)
    ensures Drained(client, buffer, calls) ==
            var next := NextSseEvent(buffer);
            if next.None? then Running(buffer, calls)
            else
              var stage := Process(client, next.value.0, buffer[next.value.1..], calls);
              if stage.Running? then Drained(client, buffer[next.value.1..], stage.calls) else stage
  {
  }

  // ---- what a server sends ----

  predicate EndsWith(event: Bytes, suffix: Bytes) {
    |suffix| <= |event| && event[|event| - |suffix|..] == suffix
  }

  /** No blank line inside, and an end that makes none together with the blank line `end` that follows. */
  ghost predicate Sendable(event: Bytes, end: Bytes) {
    && (forall i: nat :: Delimiter(event, i) == 0)
    && (end == LF_LF ==> !EndsWith(event, [LF]) && !EndsWith(event, [CR, LF, CR]))
    && (end == CRLF_CRLF ==> !EndsWith(event, [CR, LF]))
  }

  predicate BlankLine(end: Bytes) {
    end == [10, 10] || end == [13, 10, 13, 10]
  }

  /** Before the end of an event a delimiter in its frame is one inside it, or one of the excluded ends. */
  lemma DelimiterInFrame(event: Bytes, end: Bytes, i: nat)
    requires BlankLine(end) && i < |event|
    ensures Delimiter(event + end, i) == 0 <==>
            && Delimiter(event, i) == 0
            && (end == LF_LF ==>
                  && (i + 1 == |event| ==> event[i] != LF)
                  && (i + 3 == |event| ==> event[i..] != [CR, LF, CR]))
            && (end == CRLF_CRLF ==> (i + 2 == |event| ==> event[i..] != [CR, LF]))
  {
    var all := event + end;
    assert all[i..i + 2] == [all[i], all[i + 1]];
    if i + 4 <= |all| {
      assert all[i..i + 4] == [all[i], all[i + 1], all[i + 2], all[i + 3]];
    }
    if i + 2 <= |event| {
      assert event[i..i + 2] == [event[i], event[i + 1]];
    }
    if i + 4 <= |event| {
      assert event[i..i + 4] == [event[i], event[i + 1], event[i + 2], event[i + 3]];
    }
    if i + 3 == |event| {
      assert event[i..] == [event[i], event[i + 1], event[i + 2]];
    }
    if i + 2 == |event| {
      assert event[i..] == [event[i], event[i + 1]];
    }
  }

  lemma DelimiterAtEnd(event: Bytes, end: Bytes)
    requires BlankLine(end)
    ensures Delimiter(event + end, |event|) == |end|
  {
    var all := event + end;
    assert all[|event|..|event| + |end|] == end;
    if end == CRLF_CRLF {
      assert all[|event|..|event| + 2][0] == CR;
    }
  }

  /** Exactly such events are read back from their frame. */
  lemma SendableExactly(event: Bytes, end: Bytes)
    requires BlankLine(end)
    ensures NextSseEvent(event + end) == Some((event, |event| + |end|)) <==> Sendable(event, end)
  {
    assert |end| > 0;
    hide Delimiter, BlankLine, NextSseEvent, EndsWith;
    var all := event + end;
    DelimiterAtEnd(event, end);
    forall i: nat | i < |event|
      ensures Delimiter(all, i) == 0 <==>
              && Delimiter(event, i) == 0
              && (end == LF_LF ==>
                    && (i + 1 == |event| ==> event[i] != LF)
                    && (i + 3 == |event| ==> event[i..] != [CR, LF, CR]))
              && (end == CRLF_CRLF ==> (i + 2 == |event| ==> event[i..] != [CR, LF]))
    {
      DelimiterInFrame(event, end, i);
    }
    EndsSpelled(event);
    NothingBeyond(event);
    FirstDelimiter(all, |event|);
    assert all[..|event|] == event;
  }

  lemma EndsSpelled(event: Bytes)
    ensures EndsWith(event, [LF]) <==> |event| >= 1 && event[|event| - 1] == LF
    ensures EndsWith(event, [CR, LF, CR]) <==> |event| >= 3 && event[|event| - 3..] == [CR, LF, CR]
    ensures EndsWith(event, [CR, LF]) <==> |event| >= 2 && event[|event| - 2..] == [CR, LF]
  {
    if |event| >= 1 {
      assert event[|event| - 1..] == [event[|event| - 1]];
    }
  }

  lemma NothingBeyond(event: Bytes)
    ensures forall i: nat :: i >= |event| ==> Delimiter(event, i) == 0
  {
  }

  /** The reader stops at the first delimiter. */
  lemma FirstDelimiter(all: Bytes, at: nat)
    requires Delimiter(all, at) > 0 && at <= |all|
    ensures NextSseEvent(all) == Some((all[..at], at + Delimiter(all, at))) <==>
            forall i: nat :: i < at ==> Delimiter(all, i) == 0
  {
    hide Delimiter;
    var next := NextSseEvent(all);
    if next.Some? {
      var first := |next.value.0|;
      assert Delimiter(all, first) > 0;
    }
  }

  /** An event and the blank line that ends it. */
  type Frame = (Bytes, Bytes)

  function Frames(frames: seq<Frame>): Bytes {
    if frames == [] then [] else frames[0].0 + frames[0].1 + Frames(frames[1..])
  }

  function EventsOf(frames: seq<Frame>): seq<Bytes> {
    if frames == [] then [] else [frames[0].0] + EventsOf(frames[1..])
  }

  /** The events handled one by one; the first that ends the run ends it. */
  function Handled(client: Client, events: seq<Bytes>, rest: Bytes, calls: seq<string>): Stage
    decreases |events|
  {
    if events == [] then Drained(client, rest, calls)
    else
      var stage := Process(client, events[0], [], calls);
      if stage.Running? then Handled(client, events[1..], rest, stage.calls) else stage
  }

  /** Framing round trip: the reader takes a framed stream apart into exactly the events that were sent, with either
      kind of blank line after each. */
  lemma {:induction false} FramesAreRead(client: Client, frames: seq<Frame>, rest: Bytes, calls: seq<string>)
    requires forall frame :: frame in frames ==> BlankLine(frame.1) && Sendable(frame.0, frame.1)
    ensures Drained(client, Frames(frames) + rest, calls) == Handled(client, EventsOf(frames), rest, calls)
    decreases |frames|
  {
    hide Process, NextSseEvent, Sendable;
    if frames == [] {
      assert Frames(frames) + rest == rest;
    } else {
      var (event, end) := frames[0];
      assert (event, end) in frames;
      var tail := Frames(frames[1..]) + rest;
      var all := event + end + tail;
      assert Frames(frames) + rest == all;
      SendableExactly(event, end);
      EventStays(event + end, tail);
      assert all[|event| + |end|..] == tail;
      ProcessKeepsRest(client, event, [], tail, calls);
      var stage := Process(client, event, [], calls);
      assert EventsOf(frames)[1..] == EventsOf(frames[1..]);
      if stage.Running? {
        FramesAreRead(client, frames[1..], rest, stage.calls);
      }
    }
  }

  /** The calls only grow: what a prefix of the stream makes the client see is a prefix of what the whole
      stream makes it see. */
  lemma CallsGrow(client: Client, stream: Bytes, more: Bytes)
    ensures Drained(client, stream, []).calls <= Drained(client, stream + more, []).calls
  {
    hide Drained;
    DrainedAppend(client, stream, more, []);
    var stage := Drained(client, stream, []);
    if stage.Running? {
      DrainedExtends(client, stage.rest + more, stage.calls);
    }
  }

  lemma {:induction false} DrainedExtends(client: Client, buffer: Bytes, calls: seq<string>)
    ensures calls <= Drained(client, buffer, calls).calls
    decreases |buffer|
  {
    hide NextSseEvent, EventData;
    var next := NextSseEvent(buffer);
    if next.Some? {
      EventWithin(buffer);
      var stage := Process(client, next.value.0, buffer[next.value.1..], calls);
      if stage.Running? {
        DrainedExtends(client, buffer[next.value.1..], stage.calls);
      }
    }
  }
}
