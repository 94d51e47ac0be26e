/** The final result of a command, answered directly or gathered from the frame
    stream, and exactly when the two agree: a direct answer carries its output as
    text, which not all bytes survive. */
module Results {
  import opened Text
  import opened Frames
  import opened Pipeline

  /** The conversions between bytes and text, which replace what is no UTF-8. */
  datatype Utf8 = Utf8(text: seq<byte> -> string, bytes: string -> seq<byte>) {
    predicate Survives(output: seq<byte>) {
      bytes(text(output)) == output
    }
  }

  datatype ExecResult = ExecResult(status: Status, stdout: string, stderr: string)

  /** The bytes one of the two streams contributes to a list of events. */
  function BytesOf(events: seq<Event>, ofOut: bool): seq<byte> {
    Flatten(Project(events, ofOut))
  }

  lemma BytesSnoc(events: seq<Event>, e: Event, ofOut: bool)
    ensures BytesOf(events + [e], ofOut) ==
            BytesOf(events, ofOut) + if (ofOut && e.Stdout?) || (!ofOut && e.Stderr?) then e.data else []
  {
    hide Flatten, Project;
    ProjectSnoc(events, e, ofOut);
    if (ofOut && e.Stdout?) || (!ofOut && e.Stderr?) {
      FlattenSnoc(Project(events, ofOut), e.data);
    } else {
      assert Project(events, ofOut) + [] == Project(events, ofOut);
      assert Flatten(Project(events, ofOut)) + [] == Flatten(Project(events, ofOut));
    }
  }

  /** The last status among the events. */
  function LastStatus(events: seq<Event>): Option<Status> {
    if events == [] then None
    else
      var last := events[|events| - 1];
      if last.Terminal? then Some(last.status) else LastStatus(events[..|events| - 1])
  }

  lemma LastStatusSnoc(events: seq<Event>, e: Event)
    ensures LastStatus(events + [e]) == if e.Terminal? then Some(e.status) else LastStatus(events)
  {
    assert (events + [e])[..|events|] == events;
  }

  /** The direct result of the consumed events, if the status is among them. */
  function DirectResult(utf8: Utf8, events: seq<Event>): Option<ExecResult> {
    match LastStatus(events)
    case None => None
    case Some(status) =>
      Some(ExecResult(status, utf8.text(BytesOf(events, true)), utf8.text(BytesOf(events, false))))
  }

  method Direct(utf8: Utf8, events: seq<Event>) returns (result: Option<ExecResult>)
    ensures result == DirectResult(utf8, events)
  {
    hide BytesOf, LastStatus;
    NoEvents();
    var stdout, stderr := [], [];
    var status: Option<Status> := None;
    assert events[..0] == [];
    for i := 0 to |events|
      invariant stdout == BytesOf(events[..i], true) && stderr == BytesOf(events[..i], false)
      invariant status == LastStatus(events[..i])
    {
      assert events[..i + 1] == events[..i] + [events[i]];
      BytesSnoc(events[..i], events[i], true);
      BytesSnoc(events[..i], events[i], false);
      LastStatusSnoc(events[..i], events[i]);
      match events[i]
      case Stdout(bytes) => stdout := stdout + bytes;
      case Stderr(bytes) => stderr := stderr + bytes;
      case Terminal(terminal) => status := Some(terminal);
    }
    assert events[..|events|] == events;
    result := if status.None? then None else Some(ExecResult(status.value, utf8.text(stdout), utf8.text(stderr)));
  }

  lemma NoEvents()
    ensures BytesOf([], true) == [] == BytesOf([], false) && LastStatus([]) == None
  {
  }

  /** A status is found exactly when one was consumed. */
  lemma {:induction false} LastStatusFound(events: seq<Event>)
    ensures LastStatus(events).None? <==> OutputOnly(events)
    decreases |events|
  {
    if events != [] {
      LastStatusFound(events[..|events| - 1]);
      var last := events[|events| - 1];
      assert events[..|events| - 1] + [last] == events;
    }
  }

  /** What the collecting loop finds ready first: the deadline, or what the channel
      gives. */
  datatype Arrival = Elapsed | ChannelEnded | Received(event: Event)

  /** Consumes events until the status or until something else comes first; there is
      a result exactly when the last event consumed is the status. */
  method Collect(utf8: Utf8, arrivals: seq<Arrival>) returns (consumed: seq<Event>, result: Option<ExecResult>)
    ensures |consumed| <= |arrivals| && forall i :: 0 <= i < |consumed| ==> arrivals[i] == Received(consumed[i])
    ensures forall i :: 0 <= i < |consumed| - 1 ==> !consumed[i].Terminal?
    ensures result.Some? <==> consumed != [] && consumed[|consumed| - 1].Terminal?
    ensures result.None? && |consumed| < |arrivals| ==> !arrivals[|consumed|].Received?
    ensures result == DirectResult(utf8, consumed)
  {
    hide LastStatus, BytesOf;
    consumed := [];
    var terminal := false;
    NoEvents();
    while |consumed| < |arrivals| && !terminal
      invariant |consumed| <= |arrivals|
      invariant forall i :: 0 <= i < |consumed| ==> arrivals[i] == Received(consumed[i])
      invariant forall i :: 0 <= i < |consumed| - 1 ==> !consumed[i].Terminal?
      invariant terminal <==> consumed != [] && consumed[|consumed| - 1].Terminal?
      invariant LastStatus(consumed).Some? <==> terminal
      decreases |arrivals| - |consumed|
    {
      if !arrivals[|consumed|].Received? {
        break;
      }
      var event := arrivals[|consumed|].event;
      terminal := event.Terminal?;
      LastStatusSnoc(consumed, event);
      consumed := consumed + [event];
    }
    result := Direct(utf8, consumed);
  }

  /** What the caller of the client library gets. */
  datatype Outcome =
    | Collected(exitCode: int32, stdout: seq<byte>, stderr: seq<byte>)
    | Terminated(signal: int32)
    | StreamFailed(failure: Failure)

  /** The outcome of a result the server answered directly. */
  function DirectOutcome(utf8: Utf8, result: ExecResult): Outcome {
    match result.status
    case Exited(code) => Collected(code, utf8.bytes(result.stdout), utf8.bytes(result.stderr))
    case Signaled(signal) => Terminated(signal)
  }

  function FirstStatus(frames: seq<Event>): Option<Status> {
    if frames == [] then None
    else if frames[0].Terminal? then Some(frames[0].status)
    else FirstStatus(frames[1..])
  }

  /** The outcome of draining a frame stream: a signaled status fails it as soon as it
      is delivered, and so before any later fault; an exit code ends the collection. */
  function StreamOutcome(verdict: Verdict): Outcome {
    match verdict
    case Failed(frames, failure) =>
      if FirstStatus(frames).Some? && FirstStatus(frames).value.Signaled?
      then Terminated(FirstStatus(frames).value.signal)
      else StreamFailed(failure)
    case Complete(frames) =>
      match FirstStatus(frames)
      case Some(Signaled(signal)) => Terminated(signal)
      case Some(Exited(code)) => Collected(code, BytesOf(frames, true), BytesOf(frames, false))
      case None => Collected(0, BytesOf(frames, true), BytesOf(frames, false))
  }

  /** A stream that fails never counts as collected: its caller is told the failure, or
      the signal if a signaled status had been delivered. */
  lemma FailedOutcome(codec: Codec, chunks: seq<seq<byte>>)
    ensures var verdict := Streamed(codec, INITIAL, chunks);
            verdict.Failed? ==>
              || StreamOutcome(verdict) == StreamFailed(verdict.failure)
              || exists signal :: Terminal(Signaled(signal)) in verdict.frames && StreamOutcome(verdict) == Terminated(signal)
  {
    hide Streamed;
    var verdict := Streamed(codec, INITIAL, chunks);
    if verdict.Failed? && FirstStatus(verdict.frames).Some? {
      FirstStatusIn(verdict.frames);
    }
  }

  lemma {:induction false} FirstStatusIn(frames: seq<Event>)
    requires FirstStatus(frames).Some?
    ensures Terminal(FirstStatus(frames).value) in frames
    decreases |frames|
  {
    if !frames[0].Terminal? {
      FirstStatusIn(frames[1..]);
    }
  }

  /** Output without a status, an empty response included, is a failed stream. */
  lemma CutOffFails(codec: Codec, output: seq<Event>, chunks: seq<seq<byte>>)
    requires OutputOnly(output) && Flatten(chunks) == EncodedAll(codec, output)
    ensures StreamOutcome(Streamed(codec, INITIAL, chunks)) == StreamFailed(NoStatus)
  {
    hide Streamed, EncodedAll, FramesOfAll, Flatten;
    NoStatusFails(codec, output, chunks);
    OutputFrames(output);
    NoFirstStatus(FramesOfAll(output));
  }

  lemma {:induction false} NoFirstStatus(frames: seq<Event>)
    requires OutputOnly(frames)
    ensures FirstStatus(frames).None?
    decreases |frames|
  {
    if frames != [] {
      NoFirstStatus(frames[1..]);
    }
  }

  lemma {:induction false} BytesAppend(a: seq<Event>, b: seq<Event>, ofOut: bool)
    ensures BytesOf(a + b, ofOut) == BytesOf(a, ofOut) + BytesOf(b, ofOut)
    decreases |b|
  {
    hide BytesOf;
    NoEvents();
    if b == [] {
      assert a + b == a;
    } else {
      var front, last := b[..|b| - 1], b[|b| - 1];
      BytesAppend(a, front, ofOut);
      assert a + b == (a + front) + [last] && b == front + [last];
      BytesSnoc(a + front, last, ofOut);
      BytesSnoc(front, last, ofOut);
      Associative(BytesOf(a, ofOut), BytesOf(front, ofOut),
                  if (ofOut && last.Stdout?) || (!ofOut && last.Stderr?) then last.data else []);
    }
  }

  /** Splitting output into frames keeps each stream's bytes. */
  lemma {:induction false} EachBytes(channel: byte, chunks: seq<seq<byte>>, ofOut: bool)
    requires channel == STDOUT || channel == STDERR
    ensures BytesOf(Each(channel, chunks), ofOut) == if ofOut == (channel == STDOUT) then Flatten(chunks) else []
    ensures OutputOnly(Each(channel, chunks))
    decreases |chunks|
  {
    hide BytesOf;
    NoEvents();
    if chunks != [] {
      var first := if channel == STDOUT then Stdout(chunks[0]) else Stderr(chunks[0]);
      EachBytes(channel, chunks[1..], ofOut);
      BytesAppend([first], Each(channel, chunks[1..]), ofOut);
      assert [] + [first] == [first];
      BytesSnoc([], first, ofOut);
    }
  }

  lemma FramesBytesOf(event: Event, ofOut: bool)
    ensures BytesOf(FramesOf(event), ofOut) == BytesOf([event], ofOut)
    ensures !event.Terminal? ==> OutputOnly(FramesOf(event))
  {
    hide BytesOf, Each, Chunks, Flatten;
    NoEvents();
    assert [] + [event] == [event];
    BytesSnoc([], event, ofOut);
    if !event.Terminal? {
      ChunksFit(event.data);
      EachBytes(ChannelOf(event), Chunks(event.data), ofOut);
    }
  }

  lemma {:induction false} FramesKeepBytes(events: seq<Event>, ofOut: bool)
    ensures BytesOf(FramesOfAll(events), ofOut) == BytesOf(events, ofOut)
    decreases |events|
  {
    hide BytesOf, FramesOf;
    if events != [] {
      FramesKeepBytes(events[1..], ofOut);
      FramesBytesOf(events[0], ofOut);
      BytesAppend(FramesOf(events[0]), FramesOfAll(events[1..]), ofOut);
      BytesAppend([events[0]], events[1..], ofOut);
      assert [events[0]] + events[1..] == events;
    }
  }

  lemma {:induction false} FirstStatusAfter(output: seq<Event>, status: Status)
    requires OutputOnly(output)
    ensures FirstStatus(output + [Terminal(status)]) == Some(status)
    ensures LastStatus(output + [Terminal(status)]) == Some(status)
    decreases |output|
  {
    LastStatusSnoc(output, Terminal(status));
    if output != [] {
      FirstStatusAfter(output[1..], status);
      assert (output + [Terminal(status)])[1..] == output[1..] + [Terminal(status)];
    }
  }

  lemma {:induction false} OutputFrames(output: seq<Event>)
    requires OutputOnly(output)
    ensures OutputOnly(FramesOfAll(output))
    decreases |output|
  {
    hide FramesOf;
    if output != [] {
      OutputFrames(output[1..]);
      FramesBytesOf(output[0], true);
    }
  }

  /** What the caller should get from a child, however the request is served. */
  function Expected(child: Child): Outcome {
    match child.status
    case Exited(code) => Collected(code, Flatten(Reads(child.out)), Flatten(Reads(child.err)))
    case Signaled(signal) => Terminated(signal)
  }

  lemma FullRunBytes(child: Child, events: seq<Event>)
    requires FullRun(child, events)
    ensures LastStatus(events) == Some(child.status)
    ensures BytesOf(events, true) == Flatten(Reads(child.out)) && BytesOf(events, false) == Flatten(Reads(child.err))
  {
    hide LastStatus, Project, Reads, Flatten;
    var output :| OutputOnly(output) && events == output + [Terminal(child.status)];
    FirstStatusAfter(output, child.status);
  }

  lemma FullRunDecodes(codec: Codec, child: Child, events: seq<Event>, chunks: seq<seq<byte>>)
    requires codec.Valid() && FullRun(child, events) && Flatten(chunks) == EncodedAll(codec, events)
    ensures StreamOutcome(Streamed(codec, INITIAL, chunks)) == Expected(child)
  {
    hide BytesOf, Fed, Streamed, EncodedAll, FramesOfAll, Reads, Flatten, LastStatus, FirstStatus;
    var output :| OutputOnly(output) && events == output + [Terminal(child.status)];
    RoundTrip(codec, output, child.status, chunks);
    StreamedFed(codec, INITIAL, chunks);
    EncodedAppend(codec, output, [Terminal(child.status)]);
    EncodedOne(codec, Terminal(child.status));
    OutputFrames(output);
    FirstStatusAfter(FramesOfAll(output), child.status);
    FramesKeepBytes(events, true);
    FramesKeepBytes(events, false);
    FullRunBytes(child, events);
  }

  /** From end to end: whatever the schedule and however the response is cut into
      chunks, an upgraded request that closes gives the caller exactly the child's
      output and status. */
  lemma {:induction false} UpgradedDelivers(codec: Codec, child: Child, waits: bool, moves: seq<Move>, chunks: seq<seq<byte>>)
    requires codec.Valid()
    requires var s := Execute(child, Start(child, waits), moves);
             && s.Some? && s.value.consumer.Closed?
             && Flatten(chunks) == EncodedAll(codec, s.value.consumer.sent)
    ensures StreamOutcome(Streamed(codec, INITIAL, chunks)) == Expected(child)
  {
    hide Execute, Streamed, EncodedAll, Flatten, FullRun, StreamOutcome, Expected;
    EndsFull(child, waits, moves);
    FullRunDecodes(codec, child, Execute(child, Start(child, waits), moves).value.consumer.sent, chunks);
  }

  /** A direct answer is possible exactly when the status has been consumed. It gives
      the caller the same outcome exactly when both outputs survive as text, or the
      command was terminated and has no output to give. */
  lemma {:induction false} DirectDelivers(utf8: Utf8, child: Child, waits: bool, moves: seq<Move>)
    requires Execute(child, Start(child, waits), moves).Some?
    ensures var consumer := Execute(child, Start(child, waits), moves).value.consumer;
            && (consumer.Collecting? ==> DirectResult(utf8, consumer.consumed).None?)
            && (consumer.Answered? ==>
                  && var result := DirectResult(utf8, consumer.consumed);
                  && result.Some?
                  && (DirectOutcome(utf8, result.value) == Expected(child) <==>
                        || child.status.Signaled?
                        || (utf8.Survives(Flatten(Reads(child.out))) && utf8.Survives(Flatten(Reads(child.err))))))
  {
    hide Execute, FullRun, LastStatus, BytesOf, Flatten, Reads;
    var s := Execute(child, Start(child, waits), moves).value;
    EverySchedule(child, waits, moves);
    EndsFull(child, waits, moves);
    if s.consumer.Collecting? {
      LastStatusFound(s.consumer.consumed);
    } else if s.consumer.Answered? {
      FullRunBytes(child, s.consumer.consumed);
    }
  }
}
