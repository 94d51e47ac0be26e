/** The exec frame stream: the server's encoder and the client's incremental
    decoder. */
module Frames {
  import opened Text

  type byte = x: int | 0 <= x < 256

  type int32 = x: int | -0x8000_0000 <= x < 0x8000_0000

  const STDOUT: byte := 1
  const STDERR: byte := 2
  const ERROR: byte := 3

  /** A header names the channel in a byte and the payload's length in four more. */
  const HEADER_LEN: nat := 5

  const MAX_PAYLOAD_LEN: nat := 4194304

  datatype Status = Exited(exitCode: int32) | Signaled(signal: int32)

  /** An output chunk or the terminal status; the client's frames have the same shape. */
  datatype Event = Stdout(data: seq<byte>) | Stderr(data: seq<byte>) | Terminal(status: Status)

  /** The JSON text of a status and its parser. */
  datatype Codec = Codec(payload: Status -> seq<byte>, parse: seq<byte> -> Option<Status>) {
    ghost predicate Valid() {
      forall s {:trigger payload(s)} ::
        parse(payload(s)) == Some(s) && 0 < |payload(s)| <= MAX_PAYLOAD_LEN
    }
  }

  /** The payload cut into pieces of at most the limit. */
  function Chunks(payload: seq<byte>): seq<seq<byte>>
    decreases |payload|
  {
    if payload == [] then []
    else if |payload| <= MAX_PAYLOAD_LEN then [payload]
    else [payload[..MAX_PAYLOAD_LEN]] + Chunks(payload[MAX_PAYLOAD_LEN..])
  }

  function BigEndian(n: nat): (bytes: seq<byte>)
    requires n < 0x1_0000_0000
    ensures |bytes| == 4
  {
    [n / 0x100_0000, n / 0x1_0000 % 256, n / 256 % 256, n % 256]
  }

  function FromBigEndian(a: byte, b: byte, c: byte, d: byte): (n: nat)
    ensures n < 0x1_0000_0000
  {
    ((a * 256 + b) * 256 + c) * 256 + d
  }

  lemma BigEndianRoundTrip(n: nat)
    requires n < 0x1_0000_0000
    ensures var b := BigEndian(n); FromBigEndian(b[0], b[1], b[2], b[3]) == n
  {
    assert n / 0x1_0000 == n / 256 / 256 && n / 0x100_0000 == n / 0x1_0000 / 256;
  }

  function FrameBytes(channel: byte, chunk: seq<byte>): seq<byte>
    requires |chunk| <= MAX_PAYLOAD_LEN
  {
    [channel] + BigEndian(|chunk|) + chunk
  }

  function ChannelOf(event: Event): byte {
    match event
    case Stdout(_) => STDOUT
    case Stderr(_) => STDERR
    case Terminal(_) => ERROR
  }

  function PayloadOf(codec: Codec, event: Event): seq<byte> {
    match event
    case Stdout(data) => data
    case Stderr(data) => data
    case Terminal(status) => codec.payload(status)
  }

  function FramesBytes(channel: byte, chunks: seq<seq<byte>>): seq<byte>
    requires forall i :: 0 <= i < |chunks| ==> |chunks[i]| <= MAX_PAYLOAD_LEN
  {
    if chunks == [] then [] else FrameBytes(channel, chunks[0]) + FramesBytes(channel, chunks[1..])
  }

  lemma {:induction false} ChunksFit(payload: seq<byte>)
    ensures forall i :: 0 <= i < |Chunks(payload)| ==> 0 < |Chunks(payload)[i]| <= MAX_PAYLOAD_LEN
    ensures Flatten(Chunks(payload)) == payload
    decreases |payload|
  {
    if |payload| > MAX_PAYLOAD_LEN {
      ChunksFit(payload[MAX_PAYLOAD_LEN..]);
      assert payload[..MAX_PAYLOAD_LEN] + payload[MAX_PAYLOAD_LEN..] == payload;
    }
  }

  function Encoded(codec: Codec, event: Event): seq<byte> {
    ChunksFit(PayloadOf(codec, event));
    FramesBytes(ChannelOf(event), Chunks(PayloadOf(codec, event)))
  }

  method Encode(codec: Codec, event: Event) returns (frames: seq<byte>)
    ensures frames == Encoded(codec, event)
  {
    hide Chunks, FrameBytes;
    var channel, payload := ChannelOf(event), PayloadOf(codec, event);
    ChunksFit(payload);
    var chunks := Chunks(payload);
    frames := [];
    for i := 0 to |chunks|
      invariant frames + FramesBytes(channel, chunks[i..]) == FramesBytes(channel, chunks)
    {
      assert chunks[i..][1..] == chunks[i + 1..];
      Associative(frames, FrameBytes(channel, chunks[i]), FramesBytes(channel, chunks[i + 1..]));
      frames := frames + FrameBytes(channel, chunks[i]);
    }
    assert chunks[|chunks|..] == [];
  }

  datatype Failure =
    | UnknownChannel(id: byte)
    | TooLong(length: nat)
    | NotAStatus
    | AfterStatus
    | NoStatus

  /** What the front of a buffer holds. */
  datatype Front = More | Bad(failure: Failure) | Got(frame: Event, rest: seq<byte>)

  function ReadFrame(codec: Codec, buffer: seq<byte>): (front: Front)
    ensures front.Got? ==> |front.rest| + HEADER_LEN <= |buffer|
  {
    if |buffer| < HEADER_LEN then More
    else
      var channel := buffer[0];
      var length := FromBigEndian(buffer[1], buffer[2], buffer[3], buffer[4]);
      if channel != STDOUT && channel != STDERR && channel != ERROR then Bad(UnknownChannel(channel))
      else if length > MAX_PAYLOAD_LEN then Bad(TooLong(length))
      else if |buffer| < HEADER_LEN + length then More
      else Delivered(codec, channel, buffer[HEADER_LEN..HEADER_LEN + length], buffer[HEADER_LEN + length..])
  }

  function Delivered(codec: Codec, channel: byte, payload: seq<byte>, after: seq<byte>): (front: Front)
    ensures front.Got? ==> front.rest == after
  {
    if channel == STDOUT then Got(Stdout(payload), after)
    else if channel == STDERR then Got(Stderr(payload), after)
    else if codec.parse(payload).None? then Bad(NotAStatus)
    else Got(Terminal(codec.parse(payload).value), after)
  }

  /** Bytes read so far, and whether the terminal status has arrived. */
  datatype State = State(buffer: seq<byte>, done: bool)

  datatype Decoded = Ok(state: State, frames: seq<Event>) | Error(failure: Failure)

  const INITIAL := State([], false)

  function Prefixed(frames: seq<Event>, decoded: Decoded): Decoded {
    match decoded
    case Error(_) => decoded
    case Ok(state, more) => Ok(state, frames + more)
  }

  /** Everything a buffer decodes to. */
  function Drained(codec: Codec, buffer: seq<byte>): Decoded
    decreases |buffer|
  {
    match ReadFrame(codec, buffer)
    case More => Ok(State(buffer, false), [])
    case Bad(failure) => Error(failure)
    case Got(frame, rest) =>
      if !frame.Terminal? then Prefixed([frame], Drained(codec, rest))
      else if rest == [] then Ok(State([], true), [frame])
      else Error(AfterStatus)
  }

  function Step(codec: Codec, state: State, chunk: seq<byte>): Decoded {
    if state.done then
      if chunk == [] then Ok(state, []) else Error(AfterStatus)
    else Drained(codec, state.buffer + chunk)
  }

  /** Fills one buffer with all the chunks. */
  method Concat(chunks: seq<seq<byte>>) returns (merged: array<byte>)
    ensures merged[..] == Flatten(chunks)
  {
    merged := new byte[|Flatten(chunks)|];
    var offset := 0;
    assert chunks[..0] == [];
    for k := 0 to |chunks|
      invariant offset == |Flatten(chunks[..k])| <= merged.Length
      invariant merged[..offset] == Flatten(chunks[..k])
      invariant fresh(merged) && merged.Length == |Flatten(chunks)|
    {
      hide Flatten;
      var chunk := chunks[k];
      FlattenNext(chunks, k);
      forall i | 0 <= i < |chunk| {
        merged[offset + i] := chunk[i];
      }
      assert merged[..offset + |chunk|] == merged[..offset] + chunk;
      offset := offset + |chunk|;
    }
    assert chunks[..|chunks|] == chunks;
  }

  lemma FlattenNext(chunks: seq<seq<byte>>, k: nat)
    requires k < |chunks|
    ensures Flatten(chunks[..k + 1]) == Flatten(chunks[..k]) + chunks[k]
    ensures |Flatten(chunks[..k + 1])| <= |Flatten(chunks)|
  {
    hide Flatten;
    assert chunks[..k + 1] == chunks[..k] + [chunks[k]];
    FlattenSnoc(chunks[..k], chunks[k]);
    assert chunks[..k + 1] + chunks[k + 1..] == chunks;
    FlattenAppend(chunks[..k + 1], chunks[k + 1..]);
  }

  /** Reads frames off the buffered bytes while there is a whole one at the front. */
  method DecodeChunk(codec: Codec, state: State, chunk: seq<byte>) returns (decoded: Decoded)
    ensures decoded == Step(codec, state, chunk)
  {
    hide ReadFrame, Drained, Flatten;
    if state.done {
      return if chunk == [] then Ok(state, []) else Error(AfterStatus);
    }
    var merged := Concat([state.buffer, chunk]);
    FlattenPair(state.buffer, chunk);
    var buffer := merged[..];
    var frames: seq<Event> := [];
    PrefixedNone(Drained(codec, buffer));
    while |buffer| >= HEADER_LEN
      invariant Prefixed(frames, Drained(codec, buffer)) == Step(codec, state, chunk)
      decreases |buffer|
    {
      DrainedCases(codec, buffer);
      FrontCases(codec, buffer);
      var channel := buffer[0];
      var length := FromBigEndian(buffer[1], buffer[2], buffer[3], buffer[4]);
      if channel != STDOUT && channel != STDERR && channel != ERROR {
        return Error(UnknownChannel(channel));
      }
      if length > MAX_PAYLOAD_LEN {
        return Error(TooLong(length));
      }
      if |buffer| < HEADER_LEN + length {
        break;
      }
      var payload := buffer[HEADER_LEN..HEADER_LEN + length];
      ghost var before := frames;
      buffer := buffer[HEADER_LEN + length..];
      if channel == ERROR {
        var status := codec.parse(payload);
        if status.None? {
          return Error(NotAStatus);
        }
        frames := frames + [Terminal(status.value)];
        if buffer == [] {
          return Ok(State([], true), frames);
        }
        return Error(AfterStatus);
      }
      PrefixedTwice(frames, if channel == STDOUT then Stdout(payload) else Stderr(payload), Drained(codec, buffer));
      frames := frames + [if channel == STDOUT then Stdout(payload) else Stderr(payload)];
    }
    DrainedCases(codec, buffer);
    FrontCases(codec, buffer);
    decoded := Ok(State(buffer, false), frames);
  }

  lemma FlattenPair(a: seq<byte>, b: seq<byte>)
    ensures Flatten([a, b]) == a + b
  {
    assert [a, b][1..] == [b] && [b][1..] == [];
    assert Flatten([b]) == b + Flatten<byte>([]) == b;
  }

  lemma PrefixedNone(decoded: Decoded)
    ensures Prefixed([], decoded) == decoded
  {
  }

  lemma PrefixedTwice(frames: seq<Event>, frame: Event, decoded: Decoded)
    ensures Prefixed(frames, Prefixed([frame], decoded)) == Prefixed(frames + [frame], decoded)
  {
    if decoded.Ok? {
      Associative(frames, [frame], decoded.frames);
    }
  }

  lemma DrainedCases(codec: Codec, buffer: seq<byte>)
    ensures var front := ReadFrame(codec, buffer);
            Drained(codec, buffer) ==
            if front.More? then Ok(State(buffer, false), [])
            else if front.Bad? then Error(front.failure)
            else if !front.frame.Terminal? then Prefixed([front.frame], Drained(codec, front.rest))
            else if front.rest == [] then Ok(State([], true), [front.frame])
            else Error(AfterStatus)
  {
    hide ReadFrame, Prefixed;
  }

  lemma FrontCases(codec: Codec, buffer: seq<byte>)
    ensures |buffer| < HEADER_LEN ==> ReadFrame(codec, buffer) == More
    ensures |buffer| >= HEADER_LEN ==>
              var channel := buffer[0];
              var length := FromBigEndian(buffer[1], buffer[2], buffer[3], buffer[4]);
              ReadFrame(codec, buffer) ==
              if channel != STDOUT && channel != STDERR && channel != ERROR then Bad(UnknownChannel(channel))
              else if length > MAX_PAYLOAD_LEN then Bad(TooLong(length))
              else if |buffer| < HEADER_LEN + length then More
              else Delivered(codec, channel, buffer[HEADER_LEN..HEADER_LEN + length], buffer[HEADER_LEN + length..])
  {
    hide FromBigEndian, Delivered;
  }

  /** Feeding chunks one after the other. */
  function Fed(codec: Codec, state: State, chunks: seq<seq<byte>>): Decoded
    decreases |chunks|
  {
    if chunks == [] then Ok(state, [])
    else
      match Step(codec, state, chunks[0])
      case Error(failure) => Error(failure)
      case Ok(next, frames) => Prefixed(frames, Fed(codec, next, chunks[1..]))
  }

  /** The states a decoder rests in between chunks: nothing is left after the
      status, and otherwise the bytes left do not make up a frame. */
  ghost predicate Resting(codec: Codec, state: State) {
    if state.done then state.buffer == [] else ReadFrame(codec, state.buffer) == More
  }

  /** More bytes never change a verdict about the front of a buffer. */
  lemma FrontIsStable(codec: Codec, a: seq<byte>, b: seq<byte>)
    ensures var front := ReadFrame(codec, a);
            && (front.Bad? ==> ReadFrame(codec, a + b) == front)
            && (front.Got? ==> ReadFrame(codec, a + b) == Got(front.frame, front.rest + b))
  {
    hide FromBigEndian;
    if |a| >= HEADER_LEN {
      var length := FromBigEndian(a[1], a[2], a[3], a[4]);
      assert forall i :: 0 <= i < HEADER_LEN ==> (a + b)[i] == a[i];
      if |a| >= HEADER_LEN + length {
        assert (a + b)[HEADER_LEN..HEADER_LEN + length] == a[HEADER_LEN..HEADER_LEN + length];
        assert (a + b)[HEADER_LEN + length..] == a[HEADER_LEN + length..] + b;
      }
    }
  }

  /** Cutting a buffer in two and decoding the parts in turn. */
  function InTwo(codec: Codec, a: seq<byte>, b: seq<byte>): Decoded {
    match Drained(codec, a)
    case Error(failure) => Error(failure)
    case Ok(state, frames) => Prefixed(frames, Step(codec, state, b))
  }

  lemma {:induction false} DrainedSplit(codec: Codec, a: seq<byte>, b: seq<byte>)
    ensures Drained(codec, a + b) == InTwo(codec, a, b)
    decreases |a|
  {
    hide ReadFrame, Drained;
    DrainedCases(codec, a);
    DrainedCases(codec, a + b);
    FrontIsStable(codec, a, b);
    match ReadFrame(codec, a)
    case More =>
      PrefixedNone(Drained(codec, a + b));
    case Bad(_) =>
    case Got(frame, rest) =>
      if !frame.Terminal? {
        DrainedSplit(codec, rest, b);
        if Drained(codec, rest).Ok? {
          var Ok(state, frames) := Drained(codec, rest);
          PrefixedMany([frame], frames, Step(codec, state, b));
        }
      }
  }

  lemma PrefixedMany(a: seq<Event>, b: seq<Event>, decoded: Decoded)
    ensures Prefixed(a, Prefixed(b, decoded)) == Prefixed(a + b, decoded)
  {
    if decoded.Ok? {
      Associative(a, b, decoded.frames);
    }
  }

  lemma StepSplit(codec: Codec, state: State, a: seq<byte>, b: seq<byte>)
    ensures Step(codec, state, a + b) ==
            match Step(codec, state, a)
            case Error(failure) => Error(failure)
            case Ok(next, frames) => Prefixed(frames, Step(codec, next, b))
  {
    hide Drained;
    if !state.done {
      Associative(state.buffer, a, b);
      DrainedSplit(codec, state.buffer + a, b);
    }
  }

  lemma {:induction false} DrainedRests(codec: Codec, buffer: seq<byte>)
    ensures var decoded := Drained(codec, buffer);
            decoded.Ok? ==> Resting(codec, decoded.state)
    decreases |buffer|
  {
    hide ReadFrame, Drained;
    DrainedCases(codec, buffer);
    match ReadFrame(codec, buffer)
    case More =>
    case Bad(_) =>
    case Got(frame, rest) =>
      if !frame.Terminal? {
        DrainedRests(codec, rest);
      }
  }

  /** Between chunks the decoder rests, holding fewer bytes than one frame can have. */
  lemma StepRests(codec: Codec, state: State, chunk: seq<byte>)
    requires Resting(codec, state)
    ensures var decoded := Step(codec, state, chunk);
            decoded.Ok? ==>
              Resting(codec, decoded.state) && |decoded.state.buffer| < HEADER_LEN + MAX_PAYLOAD_LEN
  {
    if !state.done {
      DrainedRests(codec, state.buffer + chunk);
    }
  }

  /** The verdict on a byte stream does not depend on how it is cut into chunks:
      the same frames and final state, or the same failure. */
  lemma {:induction false} ChunkingIsIrrelevant(codec: Codec, state: State, chunks: seq<seq<byte>>)
    requires Resting(codec, state)
    ensures Fed(codec, state, chunks) == Step(codec, state, Flatten(chunks))
    decreases |chunks|
  {
    if chunks == [] {
      assert state.buffer + [] == state.buffer;
    } else {
      hide ReadFrame, Drained, Step;
      StepSplit(codec, state, chunks[0], Flatten(chunks[1..]));
      StepRests(codec, state, chunks[0]);
      var decoded := Step(codec, state, chunks[0]);
      if decoded.Ok? {
        ChunkingIsIrrelevant(codec, decoded.state, chunks[1..]);
      }
    }
  }

  /** The frames one event becomes: output split to the limit, empty output dropped. */
  function FramesOf(event: Event): seq<Event> {
    match event
    case Stdout(data) => Each(STDOUT, Chunks(data))
    case Stderr(data) => Each(STDERR, Chunks(data))
    case Terminal(_) => [event]
  }

  function Each(channel: byte, chunks: seq<seq<byte>>): seq<Event> {
    if chunks == [] then []
    else [if channel == STDOUT then Stdout(chunks[0]) else Stderr(chunks[0])] + Each(channel, chunks[1..])
  }

  function EncodedAll(codec: Codec, events: seq<Event>): seq<byte> {
    if events == [] then [] else Encoded(codec, events[0]) + EncodedAll(codec, events[1..])
  }

  function FramesOfAll(events: seq<Event>): seq<Event> {
    if events == [] then [] else FramesOf(events[0]) + FramesOfAll(events[1..])
  }

  /** Reading back one frame. */
  lemma ReadFrameBytes(codec: Codec, channel: byte, chunk: seq<byte>, rest: seq<byte>)
    requires |chunk| <= MAX_PAYLOAD_LEN && (channel == STDOUT || channel == STDERR || channel == ERROR)
    ensures ReadFrame(codec, FrameBytes(channel, chunk) + rest) == Delivered(codec, channel, chunk, rest)
  {
    hide Delivered, ReadFrame, FromBigEndian, BigEndian;
    var size := BigEndian(|chunk|);
    var buffer := FrameBytes(channel, chunk) + rest;
    assert buffer[0] == channel;
    assert buffer[1] == size[0] && buffer[2] == size[1] && buffer[3] == size[2] && buffer[4] == size[3];
    BigEndianRoundTrip(|chunk|);
    FrontCases(codec, buffer);
    assert buffer[HEADER_LEN..HEADER_LEN + |chunk|] == chunk;
    assert buffer[HEADER_LEN + |chunk|..] == rest;
  }

  lemma {:induction false} DrainedChunks(codec: Codec, channel: byte, chunks: seq<seq<byte>>, rest: seq<byte>)
    requires channel == STDOUT || channel == STDERR
    requires forall i :: 0 <= i < |chunks| ==> |chunks[i]| <= MAX_PAYLOAD_LEN
    ensures Drained(codec, FramesBytes(channel, chunks) + rest) ==
            Prefixed(Each(channel, chunks), Drained(codec, rest))
    decreases |chunks|
  {
    hide ReadFrame, Drained, FrameBytes;
    if chunks == [] {
      assert FramesBytes(channel, chunks) + rest == rest;
      PrefixedNone(Drained(codec, rest));
    } else {
      var tail := FramesBytes(channel, chunks[1..]) + rest;
      Associative(FrameBytes(channel, chunks[0]), FramesBytes(channel, chunks[1..]), rest);
      ReadFrameBytes(codec, channel, chunks[0], tail);
      DrainedCases(codec, FrameBytes(channel, chunks[0]) + tail);
      DrainedChunks(codec, channel, chunks[1..], rest);
      var frame := if channel == STDOUT then Stdout(chunks[0]) else Stderr(chunks[0]);
      PrefixedMany([frame], Each(channel, chunks[1..]), Drained(codec, rest));
    }
  }

  lemma DrainedOutput(codec: Codec, event: Event, rest: seq<byte>)
    requires !event.Terminal?
    ensures Drained(codec, Encoded(codec, event) + rest) == Prefixed(FramesOf(event), Drained(codec, rest))
  {
    hide Drained, Chunks, FramesBytes, Each;
    ChunksFit(event.data);
    DrainedChunks(codec, ChannelOf(event), Chunks(event.data), rest);
  }

  lemma DrainedStatus(codec: Codec, status: Status)
    requires codec.Valid()
    ensures Drained(codec, Encoded(codec, Terminal(status))) == Ok(State([], true), [Terminal(status)])
  {
    hide ReadFrame, Drained, FrameBytes;
    var payload := codec.payload(status);
    assert Chunks(payload) == [payload];
    var chunks: seq<seq<byte>> := [payload];
    assert chunks[1..] == [];
    assert FramesBytes(ERROR, [payload]) == FrameBytes(ERROR, payload) + [];
    ReadFrameBytes(codec, ERROR, payload, []);
    DrainedCases(codec, FrameBytes(ERROR, payload) + []);
  }

  ghost predicate OutputOnly(events: seq<Event>) {
    forall i :: 0 <= i < |events| ==> !events[i].Terminal?
  }

  lemma {:induction false} DrainedEvents(codec: Codec, events: seq<Event>, rest: seq<byte>)
    requires OutputOnly(events)
    ensures Drained(codec, EncodedAll(codec, events) + rest) ==
            Prefixed(FramesOfAll(events), Drained(codec, rest))
    decreases |events|
  {
    hide Drained, Encoded, FramesOf;
    if events == [] {
      assert EncodedAll(codec, events) + rest == rest;
      PrefixedNone(Drained(codec, rest));
    } else {
      Associative(Encoded(codec, events[0]), EncodedAll(codec, events[1..]), rest);
      DrainedOutput(codec, events[0], EncodedAll(codec, events[1..]) + rest);
      DrainedEvents(codec, events[1..], rest);
      PrefixedMany(FramesOf(events[0]), FramesOfAll(events[1..]), Drained(codec, rest));
    }
  }

  /** The outcome of a whole stream, which must end after its terminal status. The
      frames of a chunk reach the caller when the whole chunk decodes; those that
      reached it before a failure stay with it. */
  datatype Verdict = Complete(frames: seq<Event>) | Failed(frames: seq<Event>, failure: Failure)

  function Delivering(frames: seq<Event>, verdict: Verdict): Verdict {
    match verdict
    case Complete(more) => Complete(frames + more)
    case Failed(more, failure) => Failed(frames + more, failure)
  }

  function Streamed(codec: Codec, state: State, chunks: seq<seq<byte>>): Verdict
    decreases |chunks|
  {
    if chunks == [] then if state.done then Complete([]) else Failed([], NoStatus)
    else
      match Step(codec, state, chunks[0])
      case Error(failure) => Failed([], failure)
      case Ok(next, frames) => Delivering(frames, Streamed(codec, next, chunks[1..]))
  }

  lemma DeliveringTwice(a: seq<Event>, b: seq<Event>, verdict: Verdict)
    ensures Delivering(a, Delivering(b, verdict)) == Delivering(a + b, verdict)
    ensures Delivering([], verdict) == verdict
  {
    Associative(a, b, verdict.frames);
  }

  /** Whether and why a stream fails does not depend on its chunks, and neither do
      the frames of one whose chunks all decode. */
  lemma StreamedVerdict(codec: Codec, state: State, chunks: seq<seq<byte>>)
    requires Resting(codec, state)
    ensures var whole := Step(codec, state, Flatten(chunks));
            var verdict := Streamed(codec, state, chunks);
            if whole.Error? then verdict == Failed(verdict.frames, whole.failure)
            else if whole.state.done then verdict == Complete(whole.frames)
            else verdict == Failed(whole.frames, NoStatus)
  {
    hide Step, Resting;
    ChunkingIsIrrelevant(codec, state, chunks);
    StreamedFed(codec, state, chunks);
  }

  lemma {:induction false} StreamedFed(codec: Codec, state: State, chunks: seq<seq<byte>>)
    ensures var fed, verdict := Fed(codec, state, chunks), Streamed(codec, state, chunks);
            if fed.Error? then verdict == Failed(verdict.frames, fed.failure)
            else if fed.state.done then verdict == Complete(fed.frames)
            else verdict == Failed(fed.frames, NoStatus)
    decreases |chunks|
  {
    hide Step;
    if chunks != [] && Step(codec, state, chunks[0]).Ok? {
      StreamedFed(codec, Step(codec, state, chunks[0]).state, chunks[1..]);
    }
  }

  /** The frames that bytes complete up to their first fault, or all of them. */
  function Completed(codec: Codec, buffer: seq<byte>): seq<Event>
    decreases |buffer|
  {
    match ReadFrame(codec, buffer)
    case More => []
    case Bad(_) => []
    case Got(frame, rest) => [frame] + if frame.Terminal? then [] else Completed(codec, rest)
  }

  function CompletedBy(codec: Codec, state: State, bytes: seq<byte>): seq<Event> {
    if state.done then [] else Completed(codec, state.buffer + bytes)
  }

  lemma CompletedCases(codec: Codec, buffer: seq<byte>)
    ensures var front := ReadFrame(codec, buffer);
            Completed(codec, buffer) ==
            if !front.Got? then [] else [front.frame] + if front.frame.Terminal? then [] else Completed(codec, front.rest)
  {
    hide ReadFrame;
  }

  /** Bytes that decode deliver what they complete; more bytes only add to it, and
      nothing is completed after a fault. */
  lemma {:induction false} CompletedSplit(codec: Codec, a: seq<byte>, b: seq<byte>)
    ensures var decoded := Drained(codec, a);
            if decoded.Ok? then
              && decoded.frames == Completed(codec, a)
              && Completed(codec, a + b) == decoded.frames + CompletedBy(codec, decoded.state, b)
            else Completed(codec, a + b) == Completed(codec, a)
    decreases |a|
  {
    hide ReadFrame, Drained, Completed;
    DrainedCases(codec, a);
    CompletedCases(codec, a);
    CompletedCases(codec, a + b);
    FrontIsStable(codec, a, b);
    match ReadFrame(codec, a)
    case More =>
      assert [] + Completed(codec, a + b) == Completed(codec, a + b);
    case Bad(_) =>
    case Got(frame, rest) =>
      if !frame.Terminal? {
        CompletedSplit(codec, rest, b);
        if Drained(codec, rest).Ok? {
          var Ok(state, frames) := Drained(codec, rest);
          Associative([frame], frames, CompletedBy(codec, state, b));
        }
      }
  }

  lemma CompletedNext(codec: Codec, state: State, a: seq<byte>, b: seq<byte>)
    requires Resting(codec, state)
    ensures var decoded := Step(codec, state, a);
            if decoded.Ok? then
              && decoded.frames == CompletedBy(codec, state, a)
              && CompletedBy(codec, state, a + b) == decoded.frames + CompletedBy(codec, decoded.state, b)
            else CompletedBy(codec, state, a + b) == CompletedBy(codec, state, a)
  {
    hide ReadFrame, Drained, Completed;
    if !state.done {
      Associative(state.buffer, a, b);
      CompletedSplit(codec, state.buffer + a, b);
    }
  }

  /** Chunk `k` is the first that does not decode. */
  ghost predicate FailsAt(codec: Codec, state: State, chunks: seq<seq<byte>>, k: nat) {
    && k < |chunks|
    && var before := Fed(codec, state, chunks[..k]);
       before.Ok? && Step(codec, before.state, chunks[k]).Error?
  }

  lemma FailsLater(codec: Codec, state: State, chunks: seq<seq<byte>>, k: nat)
    requires FailsAt(codec, state, chunks, k)
    ensures k == 0 ==> Step(codec, state, chunks[0]).Error?
    ensures k > 0 ==>
              var first := Step(codec, state, chunks[0]);
              && first.Ok? && FailsAt(codec, first.state, chunks[1..], k - 1)
              && Fed(codec, state, chunks[..k]).state == Fed(codec, first.state, chunks[1..][..k - 1]).state
              && Fed(codec, state, chunks[..k]).frames == first.frames + Fed(codec, first.state, chunks[1..][..k - 1]).frames
  {
    hide Step;
    if k == 0 {
      assert chunks[..0] == [];
    } else {
      assert chunks[..k][1..] == chunks[1..][..k - 1];
    }
  }

  lemma {:induction false} StreamedUpTo(codec: Codec, state: State, chunks: seq<seq<byte>>, k: nat)
    requires FailsAt(codec, state, chunks, k)
    ensures var before := Fed(codec, state, chunks[..k]);
            Streamed(codec, state, chunks) == Failed(before.frames, Step(codec, before.state, chunks[k]).failure)
    decreases k
  {
    hide Step;
    FailsLater(codec, state, chunks, k);
    if k == 0 {
      assert chunks[..0] == [];
    } else {
      StreamedUpTo(codec, Step(codec, state, chunks[0]).state, chunks[1..], k - 1);
    }
  }

  /** When chunk `k` is the first to fail, what reaches the caller is exactly the
      frames of the chunks before it, read in one piece. All the frames the stream
      completes before its fault reach the caller exactly when that chunk completes
      none of them. */
  lemma FailureDelivers(codec: Codec, chunks: seq<seq<byte>>, k: nat)
    requires FailsAt(codec, INITIAL, chunks, k)
    ensures var before := Step(codec, INITIAL, Flatten(chunks[..k]));
            var verdict := Streamed(codec, INITIAL, chunks);
            && before.Ok?
            && var fault := Step(codec, before.state, chunks[k]);
            && fault.Error? && verdict == Failed(before.frames, fault.failure)
            && CompletedBy(codec, INITIAL, Flatten(chunks)) == verdict.frames + CompletedBy(codec, before.state, chunks[k])
            && (verdict.frames == CompletedBy(codec, INITIAL, Flatten(chunks)) <==>
                  CompletedBy(codec, before.state, chunks[k]) == [])
  {
    hide Step, ReadFrame, CompletedBy, Fed, Streamed, Flatten;
    InitialRests(codec);
    ChunkingIsIrrelevant(codec, INITIAL, chunks[..k]);
    StreamedUpTo(codec, INITIAL, chunks, k);
    var early, late := Flatten(chunks[..k]), Flatten(chunks[k + 1..]);
    assert chunks == (chunks[..k] + [chunks[k]]) + chunks[k + 1..];
    FlattenAppend(chunks[..k] + [chunks[k]], chunks[k + 1..]);
    FlattenSnoc(chunks[..k], chunks[k]);
    Associative(early, chunks[k], late);
    CompletedNext(codec, INITIAL, early, chunks[k] + late);
    StepRests(codec, INITIAL, early);
    CompletedNext(codec, Step(codec, INITIAL, early).state, chunks[k], late);
  }

  lemma InitialRests(codec: Codec)
    ensures Resting(codec, INITIAL)
  {
  }

  /** Bytes of a frame, and bytes that are none. */
  const FRAME: seq<byte> := FrameBytes(STDOUT, [65])
  const FAULT: seq<byte> := [9, 0, 0, 0, 0]

  lemma FrameThenFault(codec: Codec)
    ensures Step(codec, INITIAL, FRAME) == Ok(INITIAL, [Stdout([65])])
    ensures Step(codec, INITIAL, FAULT) == Error(UnknownChannel(9))
    ensures Step(codec, INITIAL, FRAME + FAULT) == Error(UnknownChannel(9))
  {
    hide ReadFrame, Drained, FrameBytes;
    ReadFrameBytes(codec, STDOUT, [65], FAULT);
    ReadFrameBytes(codec, STDOUT, [65], []);
    FrontCases(codec, FAULT);
    FrontCases(codec, []);
    DrainedCases(codec, FRAME + FAULT);
    DrainedCases(codec, FAULT);
    DrainedCases(codec, FRAME);
    DrainedCases(codec, []);
    assert FRAME + [] == FRAME && [] + FRAME == FRAME && [] + FAULT == FAULT && [] + (FRAME + FAULT) == FRAME + FAULT;
  }

  /** So which frames arrive does depend on the chunks: one more chunk boundary saves
      the frame before a fault. */
  lemma FaultLosesFrame(codec: Codec)
    ensures Streamed(codec, INITIAL, [FRAME + FAULT]) == Failed([], UnknownChannel(9))
    ensures Streamed(codec, INITIAL, [FRAME, FAULT]) == Failed([Stdout([65])], UnknownChannel(9))
  {
    hide Step, FRAME, FAULT;
    FrameThenFault(codec);
    assert [FRAME, FAULT][1..] == [FAULT];
  }

  lemma {:induction false} EncodedAppend(codec: Codec, a: seq<Event>, b: seq<Event>)
    ensures EncodedAll(codec, a + b) == EncodedAll(codec, a) + EncodedAll(codec, b)
    ensures FramesOfAll(a + b) == FramesOfAll(a) + FramesOfAll(b)
    decreases |a|
  {
    hide Encoded, FramesOf;
    if a == [] {
      assert a + b == b;
    } else {
      assert (a + b)[1..] == a[1..] + b;
      EncodedAppend(codec, a[1..], b);
      Associative(Encoded(codec, a[0]), EncodedAll(codec, a[1..]), EncodedAll(codec, b));
      Associative(FramesOf(a[0]), FramesOfAll(a[1..]), FramesOfAll(b));
    }
  }

  lemma EncodedOne(codec: Codec, event: Event)
    ensures EncodedAll(codec, [event]) == Encoded(codec, event)
    ensures FramesOfAll([event]) == FramesOf(event)
  {
    hide Encoded, FramesOf;
    assert [event][1..] == [];
  }

  /** Encoding a run that ends in its one status, cutting the bytes anywhere and
      decoding the pieces gives the run back, with output split at the limit and
      empty output dropped. */
  lemma RoundTrip(codec: Codec, output: seq<Event>, status: Status, chunks: seq<seq<byte>>)
    requires codec.Valid() && OutputOnly(output)
    requires Flatten(chunks) == EncodedAll(codec, output + [Terminal(status)])
    ensures Fed(codec, INITIAL, chunks) ==
            Ok(State([], true), FramesOfAll(output + [Terminal(status)]))
  {
    hide Drained, Encoded, Fed, EncodedAll, FramesOfAll, Flatten, ReadFrame;
    EncodedAppend(codec, output, [Terminal(status)]);
    EncodedOne(codec, Terminal(status));
    DrainedEvents(codec, output, Encoded(codec, Terminal(status)));
    DrainedStatus(codec, status);
    FrontCases(codec, []);
    ChunkingIsIrrelevant(codec, INITIAL, chunks);
    assert [] + Flatten(chunks) == Flatten(chunks);
  }

  /** A run without a status fails when its stream ends, however it is cut, after all
      its output has been delivered. */
  lemma NoStatusFails(codec: Codec, output: seq<Event>, chunks: seq<seq<byte>>)
    requires OutputOnly(output) && Flatten(chunks) == EncodedAll(codec, output)
    ensures Streamed(codec, INITIAL, chunks) == Failed(FramesOfAll(output), NoStatus)
  {
    hide Drained, Encoded, Streamed, EncodedAll, FramesOfAll, Flatten, ReadFrame;
    DrainedEvents(codec, output, []);
    assert EncodedAll(codec, output) + [] == EncodedAll(codec, output);
    FrontCases(codec, []);
    DrainedCases(codec, []);
    InitialRests(codec);
    StreamedVerdict(codec, INITIAL, chunks);
    assert [] + Flatten(chunks) == Flatten(chunks);
  }

  /** A run that goes on after a status fails, however it is cut. */
  lemma SecondStatusFails(codec: Codec, output: seq<Event>, status: Status, more: seq<byte>, chunks: seq<seq<byte>>)
    requires codec.Valid() && OutputOnly(output) && more != []
    requires Flatten(chunks) == EncodedAll(codec, output + [Terminal(status)]) + more
    ensures Fed(codec, INITIAL, chunks) == Error(AfterStatus)
  {
    hide Drained, Encoded, Fed, EncodedAll, FramesOfAll, Flatten, ReadFrame;
    var whole := EncodedAll(codec, output + [Terminal(status)]);
    assert Flatten([whole]) == whole by { FlattenOne(whole); }
    RoundTrip(codec, output, status, [whole]);
    FrontCases(codec, []);
    ChunkingIsIrrelevant(codec, INITIAL, [whole]);
    StepSplit(codec, INITIAL, whole, more);
    ChunkingIsIrrelevant(codec, INITIAL, chunks);
  }

  /** The bytes on the wire: the channel's number, the length in four bytes with the
      highest first, the payload; and no bytes for empty output. */
  lemma WireFormat(codec: Codec, data: seq<byte>, status: Status)
    requires 0 < |data| <= 4 * 1024 * 1024
    ensures var n := |data|;
            var length := [n / 0x100_0000, n / 0x1_0000 % 256, n / 256 % 256, n % 256];
            && Encoded(codec, Stdout(data)) == [1] + length + data
            && Encoded(codec, Stderr(data)) == [2] + length + data
            && (codec.payload(status) == data ==> Encoded(codec, Terminal(status)) == [3] + length + data)
    ensures Encoded(codec, Stdout([])) == [] == Encoded(codec, Stderr([]))
  {
    var chunks := [data];
    assert Chunks(data) == chunks && chunks[1..] == [];
    forall channel: byte ensures FramesBytes(channel, chunks) == FrameBytes(channel, data) {
      assert FramesBytes(channel, []) == [];
    }
  }

  /** What a header must be wrong in for a stream to fail, and how: its channel, or the
      length behind a known channel, or a status that does not parse. */
  lemma MalformedFails(codec: Codec, output: seq<Event>, channel: byte, a: byte, b: byte, c: byte, d: byte,
                       more: seq<byte>, chunks: seq<seq<byte>>)
    requires OutputOnly(output)
    requires Flatten(chunks) == EncodedAll(codec, output) + ([channel, a, b, c, d] + more)
    ensures var n := a * 0x100_0000 + b * 0x1_0000 + c * 256 + d;
            var fed := Fed(codec, INITIAL, chunks);
            && (channel !in {1, 2, 3} ==> fed == Error(UnknownChannel(channel)))
            && (channel in {1, 2, 3} && n > 4 * 1024 * 1024 ==> fed == Error(TooLong(n)))
            && (channel == 3 && n <= 4 * 1024 * 1024 && n <= |more| && codec.parse(more[..n]).None? ==> fed == Error(NotAStatus))
  {
    hide Drained, ReadFrame, Fed, EncodedAll, FramesOfAll, Flatten;
    var bad := [channel, a, b, c, d] + more;
    DrainedEvents(codec, output, bad);
    InitialRests(codec);
    ChunkingIsIrrelevant(codec, INITIAL, chunks);
    assert [] + Flatten(chunks) == Flatten(chunks);
    DrainedCases(codec, bad);
    FrontCases(codec, bad);
    var n := a * 0x100_0000 + b * 0x1_0000 + c * 256 + d;
    assert FromBigEndian(a, b, c, d) == n;
    if n <= |more| {
      assert bad[HEADER_LEN..HEADER_LEN + n] == more[..n];
    }
  }

  lemma FlattenOne(a: seq<byte>)
    ensures Flatten([a]) == a
  {
    assert [a][1..] == [];
  }

  /** The client's decoder of one response body: `state` is its reference cell. */
  class Decoder {
    const codec: Codec
    var state: State

    constructor (codec: Codec)
      ensures this.codec == codec && state == INITIAL
    {
      this.codec := codec;
      state := INITIAL;
    }

    /** Consumes one chunk; the state moves only when the chunk decodes. */
    method Feed(chunk: seq<byte>) returns (decoded: Decoded)
      modifies this
      ensures decoded == Step(codec, old(state), chunk)
      ensures state == if decoded.Ok? then decoded.state else old(state)
    {
      decoded := DecodeChunk(codec, state, chunk);
      if decoded.Ok? {
        state := decoded.state;
      }
    }

    /** Consumes a whole body chunk by chunk, then checks that it was complete. */
    method DecodeStream(chunks: seq<seq<byte>>) returns (verdict: Verdict)
      requires state == INITIAL
      modifies this
      ensures verdict == Streamed(codec, INITIAL, chunks)
    {
      hide Step;
      var frames: seq<Event> := [];
      DeliveringTwice([], [], Streamed(codec, INITIAL, chunks));
      assert chunks[0..] == chunks;
      for i := 0 to |chunks|
        invariant Delivering(frames, Streamed(codec, state, chunks[i..])) == Streamed(codec, INITIAL, chunks)
      {
        assert chunks[i..][1..] == chunks[i + 1..];
        var decoded := Feed(chunks[i]);
        if decoded.Error? {
          assert frames + [] == frames;
          return Failed(frames, decoded.failure);
        }
        DeliveringTwice(frames, decoded.frames, Streamed(codec, state, chunks[i + 1..]));
        frames := frames + decoded.frames;
      }
      assert frames + [] == frames;
      verdict := if state.done then Complete(frames) else Failed(frames, NoStatus);
    }
  }
}
