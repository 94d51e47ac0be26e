/** What the decoder holds back between chunks: exactly when it is the beginning of
    a frame. */
module Leftovers {
  import opened Text
  import opened Frames

  predicate KnownChannel(channel: byte) {
    channel == STDOUT || channel == STDERR || channel == ERROR
  }

  /** The bytes are the beginning of a frame, but not all of one. */
  ghost predicate StartsFrame(bytes: seq<byte>) {
    exists channel: byte, payload: seq<byte> ::
      KnownChannel(channel) && |payload| <= MAX_PAYLOAD_LEN && bytes < FrameBytes(channel, payload)
  }

  /** As far as the bytes go they name a channel and a length within the limit, which
      is 64 times 65536. The decoder looks at neither before it has a whole header. */
  predicate Admissible(bytes: seq<byte>) {
    && (|bytes| > 0 ==> KnownChannel(bytes[0]))
    && (|bytes| > 1 ==> bytes[1] == 0)
    && (|bytes| > 2 ==> bytes[2] <= 64)
    && (|bytes| > 3 && bytes[2] == 64 ==> bytes[3] == 0)
  }

  function Zeros(n: nat): (bytes: seq<byte>)
    ensures |bytes| == n
  {
    seq(n, i => 0)
  }

  lemma HighBytes(a: byte, b: byte, n: nat)
    requires n < 0x1_0000
    ensures ((a * 256 + b) * 0x1_0000 + n) / 0x1_0000 == a * 256 + b
    ensures ((a * 256 + b) * 0x1_0000 + n) / 0x100_0000 == a
    ensures ((a * 256 + b) * 0x1_0000 + n) / 0x1_0000 % 256 == b
  {
  }

  lemma LowBytes(high: nat, c: byte, d: byte)
    ensures (high * 0x1_0000 + c * 256 + d) / 256 % 256 == c
    ensures (high * 0x1_0000 + c * 256 + d) % 256 == d
  {
    assert (high * 0x1_0000 + c * 256 + d) / 256 == high * 256 + c;
  }

  lemma BytesOfLength(a: byte, b: byte, c: byte, d: byte)
    ensures BigEndian(FromBigEndian(a, b, c, d)) == [a, b, c, d]
  {
    HighBytes(a, b, c * 256 + d);
    LowBytes(a * 256 + b, c, d);
  }

  lemma LengthFits(a: byte, b: byte, c: byte, d: byte)
    ensures FromBigEndian(a, b, c, d) <= MAX_PAYLOAD_LEN <==>
            a == 0 && b <= 64 && (b == 64 ==> c == 0 && d == 0)
  {
  }

  lemma FrameStarts(bytes: seq<byte>, channel: byte, payload: seq<byte>)
    requires KnownChannel(channel) && |payload| <= MAX_PAYLOAD_LEN && bytes < FrameBytes(channel, payload)
    ensures StartsFrame(bytes)
  {
  }

  /** Filling a header up with zeros and adding its payload. */
  lemma AdmissibleStarts(bytes: seq<byte>)
    requires |bytes| < HEADER_LEN && Admissible(bytes)
    ensures StartsFrame(bytes)
  {
    hide StartsFrame, FromBigEndian, BigEndian;
    var header := bytes + Zeros(HEADER_LEN - |bytes|);
    var channel := if bytes == [] then STDOUT else bytes[0];
    var length := FromBigEndian(header[1], header[2], header[3], 0);
    LengthFits(header[1], header[2], header[3], 0);
    BytesOfLength(header[1], header[2], header[3], 0);
    var frame := FrameBytes(channel, Zeros(length));
    assert frame[..HEADER_LEN] == [channel, header[1], header[2], header[3], 0];
    assert bytes == frame[..|bytes|];
    FrameStarts(bytes, channel, Zeros(length));
  }

  /** A whole header that the decoder accepts, with less than its payload. */
  lemma HeaderStarts(codec: Codec, bytes: seq<byte>)
    requires |bytes| >= HEADER_LEN && ReadFrame(codec, bytes) == More
    ensures StartsFrame(bytes) && Admissible(bytes)
  {
    hide StartsFrame, FromBigEndian, BigEndian;
    var length := FromBigEndian(bytes[1], bytes[2], bytes[3], bytes[4]);
    LengthFits(bytes[1], bytes[2], bytes[3], bytes[4]);
    BytesOfLength(bytes[1], bytes[2], bytes[3], bytes[4]);
    var payload := bytes[HEADER_LEN..] + Zeros(length + HEADER_LEN - |bytes|);
    var frame := FrameBytes(bytes[0], payload);
    assert bytes == frame[..|bytes|];
    FrameStarts(bytes, bytes[0], payload);
  }

  lemma StartsAdmissible(bytes: seq<byte>)
    requires StartsFrame(bytes)
    ensures Admissible(bytes)
  {
    hide BigEndian;
    var channel: byte, payload: seq<byte> :|
      KnownChannel(channel) && |payload| <= MAX_PAYLOAD_LEN && bytes < FrameBytes(channel, payload);
    var size := BigEndian(|payload|);
    BigEndianRoundTrip(|payload|);
    LengthFits(size[0], size[1], size[2], size[3]);
    var frame := FrameBytes(channel, payload);
    assert frame[0] == channel && frame[1] == size[0] && frame[2] == size[1] && frame[3] == size[2];
    assert bytes == frame[..|bytes|];
  }

  /** What is left over between chunks is the beginning of a frame exactly when its
      bytes are admissible. */
  lemma LeftoverStartsFrame(codec: Codec, bytes: seq<byte>)
    requires ReadFrame(codec, bytes) == More
    ensures StartsFrame(bytes) <==> Admissible(bytes)
  {
    hide StartsFrame, Admissible, ReadFrame;
    if StartsFrame(bytes) {
      StartsAdmissible(bytes);
    }
    if |bytes| >= HEADER_LEN {
      HeaderStarts(codec, bytes);
    } else if Admissible(bytes) {
      AdmissibleStarts(bytes);
    }
  }

  /** The same after any chunks: the decoder rests, holds less than header plus limit,
      and holds the beginning of a frame exactly when it is admissible. */
  lemma {:induction false} LeftoverExactly(codec: Codec, chunks: seq<seq<byte>>)
    ensures var decoded := Fed(codec, INITIAL, chunks);
            decoded.Ok? ==>
              && |decoded.state.buffer| < HEADER_LEN + MAX_PAYLOAD_LEN
              && (decoded.state.done ==> decoded.state.buffer == [])
              && (StartsFrame(decoded.state.buffer) <==> Admissible(decoded.state.buffer))
  {
    hide StartsFrame, Admissible, ReadFrame, Step, Fed;
    InitialRests(codec);
    ChunkingIsIrrelevant(codec, INITIAL, chunks);
    StepRests(codec, INITIAL, Flatten(chunks));
    var decoded := Fed(codec, INITIAL, chunks);
    if decoded.Ok? {
      NothingRests(codec);
      LeftoverStartsFrame(codec, decoded.state.buffer);
    }
  }

  lemma NothingRests(codec: Codec)
    ensures ReadFrame(codec, []) == More
  {
  }

  /** It need not be: one byte that names no channel is held back, and starts no frame. */
  lemma StrayByteIsHeld(codec: Codec)
    ensures Fed(codec, INITIAL, [[9]]) == Ok(State([9], false), [])
    ensures !StartsFrame([9])
  {
    hide ReadFrame, Drained, StartsFrame;
    FrontCases(codec, [9]);
    DrainedCases(codec, [9]);
    assert [] + [9] == [9] && [[9]][1..] == [];
    LeftoverStartsFrame(codec, [9]);
  }

  /** A byte that makes the bytes inadmissible is a fault as soon as the header is
      whole, and admissible bytes can always be completed. */
  lemma CompletesExactly(codec: Codec, bytes: seq<byte>)
    requires ReadFrame(codec, bytes) == More
    ensures Admissible(bytes) <==>
              exists more :: ReadFrame(codec, bytes + more).Got? || ReadFrame(codec, bytes + more) == Bad(NotAStatus)
  {
    hide StartsFrame, Admissible, ReadFrame;
    LeftoverStartsFrame(codec, bytes);
    if Admissible(bytes) {
      StartCompletes(codec, bytes);
    }
    forall more | ReadFrame(codec, bytes + more).Got? || ReadFrame(codec, bytes + more) == Bad(NotAStatus)
      ensures Admissible(bytes)
    {
      ReadAdmissible(codec, bytes, more);
    }
  }

  lemma StartCompletes(codec: Codec, bytes: seq<byte>)
    requires StartsFrame(bytes)
    ensures exists more :: ReadFrame(codec, bytes + more).Got? || ReadFrame(codec, bytes + more) == Bad(NotAStatus)
  {
    hide ReadFrame, FrameBytes;
    var channel: byte, payload: seq<byte> :|
      KnownChannel(channel) && |payload| <= MAX_PAYLOAD_LEN && bytes < FrameBytes(channel, payload);
    var frame := FrameBytes(channel, payload);
    var more := frame[|bytes|..];
    assert bytes + more == frame == frame + [];
    ReadFrameBytes(codec, channel, payload, []);
    assert ReadFrame(codec, bytes + more) == Delivered(codec, channel, payload, []);
  }

  lemma ReadAdmissible(codec: Codec, bytes: seq<byte>, more: seq<byte>)
    requires ReadFrame(codec, bytes + more).Got? || ReadFrame(codec, bytes + more) == Bad(NotAStatus)
    ensures Admissible(bytes)
  {
    hide FromBigEndian, Delivered;
    var whole := bytes + more;
    LengthFits(whole[1], whole[2], whole[3], whole[4]);
    assert forall i :: 0 <= i < |bytes| ==> whole[i] == bytes[i];
  }

  /** On the way through the bytes of a run the leftover is the beginning of a frame,
      however the bytes are cut. */
  lemma RunLeavesFrameStarts(codec: Codec, output: seq<Event>, status: Status, chunks: seq<seq<byte>>, rest: seq<byte>)
    requires codec.Valid() && OutputOnly(output)
    requires Flatten(chunks) + rest == EncodedAll(codec, output + [Terminal(status)])
    ensures var decoded := Fed(codec, INITIAL, chunks);
            decoded.Ok? && (decoded.state.done ==> rest == []) && StartsFrame(decoded.state.buffer)
  {
    hide StartsFrame, Admissible, ReadFrame, Step, Fed, Flatten, EncodedAll, FramesOfAll;
    var early := Flatten(chunks);
    InitialRests(codec);
    ChunkingIsIrrelevant(codec, INITIAL, chunks);
    StepSplit(codec, INITIAL, early, rest);
    RunSteps(codec, output, status, early + rest);
    StepRests(codec, INITIAL, early);
    var decoded := Step(codec, INITIAL, early);
    assert decoded.Ok?;
    if decoded.state.done {
      DoneTakesNothing(codec, decoded.state, rest);
      NothingRests(codec);
      EmptyStarts();
    } else {
      CompletedLater(codec, decoded.state.buffer, rest);
      LeftoverStartsFrame(codec, decoded.state.buffer);
    }
  }

  lemma RunSteps(codec: Codec, output: seq<Event>, status: Status, bytes: seq<byte>)
    requires codec.Valid() && OutputOnly(output) && bytes == EncodedAll(codec, output + [Terminal(status)])
    ensures var decoded := Step(codec, INITIAL, bytes); decoded.Ok? && decoded.state.done
  {
    hide Step, Fed, Flatten, EncodedAll, FramesOfAll, ReadFrame;
    FlattenOne(bytes);
    InitialRests(codec);
    RoundTrip(codec, output, status, [bytes]);
    ChunkingIsIrrelevant(codec, INITIAL, [bytes]);
  }

  lemma DoneTakesNothing(codec: Codec, state: State, rest: seq<byte>)
    requires state.done && Step(codec, state, rest).Ok?
    ensures rest == []
  {
  }

  lemma EmptyStarts()
    ensures StartsFrame([])
  {
    assert [] < FrameBytes(STDOUT, []);
  }

  /** A leftover that more bytes bring to the end of a run is admissible. */
  lemma CompletedLater(codec: Codec, buffer: seq<byte>, rest: seq<byte>)
    ensures var decoded := Step(codec, State(buffer, false), rest);
            ReadFrame(codec, buffer) == More && decoded.Ok? && decoded.state.done ==> Admissible(buffer)
  {
    hide ReadFrame, Drained, Admissible;
    DrainedCases(codec, buffer + rest);
    var front := ReadFrame(codec, buffer + rest);
    if front.Got? || front == Bad(NotAStatus) {
      ReadAdmissible(codec, buffer, rest);
    }
  }
}
