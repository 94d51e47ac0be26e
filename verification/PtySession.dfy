/** One PTY session seen from the code that owns it: its locked fields, the process
    it drives, the messages it exchanges, and the loop that serves its client. */
module PtySession {
  import opened Text
  import opened Frames
  import opened Slugs
  import P = PtyProtocol

  const STDIN: byte := 0
  const RESIZE: byte := 4

  datatype Exit = Exit(code: int32, signal: Option<int32>)

  function StatusOf(exit: Exit): Status {
    match exit.signal
    case Some(signal) => Signaled(signal)
    case None => Exited(exit.code)
  }

  datatype Client = Stdin(input: seq<byte>) | Resize(rows: nat, cols: nat)

  function FromPair(high: byte, low: byte): (n: nat)
    ensures n < 0x1_0000
  {
    high * 256 + low
  }

  /** What a client's binary message asks for. */
  function Decode(message: seq<byte>): Option<Client> {
    if message == [] || |message| - 1 > MAX_PAYLOAD_LEN then None
    else if message[0] == STDIN then Some(Stdin(message[1..]))
    else if message[0] == RESIZE && |message| == 5 then
      Some(Resize(FromPair(message[1], message[2]), FromPair(message[3], message[4])))
    else None
  }

  /** What a client sends comes back, unless it is over the limit; every other
      channel is refused. */
  lemma ClientRoundTrip(payload: seq<byte>, channel: byte, rows: nat, cols: nat)
    requires rows < 0x1_0000 && cols < 0x1_0000
    ensures Decode([STDIN] + payload) == if |payload| <= MAX_PAYLOAD_LEN then Some(Stdin(payload)) else None
    ensures Decode([RESIZE, rows / 256, rows % 256, cols / 256, cols % 256]) == Some(Resize(rows, cols))
    ensures channel != STDIN && (channel != RESIZE || |payload| != 4) ==> Decode([channel] + payload).None?
  {
    assert ([STDIN] + payload)[1..] == payload;
  }

  function Carried(channel: byte, payload: seq<byte>): seq<byte> {
    [channel] + payload
  }

  function CarriedAll(chunks: seq<seq<byte>>): seq<seq<byte>> {
    if chunks == [] then [] else [Carried(STDOUT, chunks[0])] + CarriedAll(chunks[1..])
  }

  /** Output as messages, split to the payload limit. */
  function StdoutMessages(bytes: seq<byte>): seq<seq<byte>> {
    CarriedAll(Chunks(bytes))
  }

  function TerminalMessage(codec: Codec, exit: Exit): seq<byte> {
    Carried(ERROR, codec.payload(StatusOf(exit)))
  }

  /** What a client learns from the terminal message: the signal that ended the process,
      and otherwise its exit code, which is -1 when the exit channel closed without one. */
  lemma TerminalTells(codec: Codec, exit: Option<Exit>)
    requires codec.Valid()
    ensures var m := TerminalMessage(codec, ExitOf(exit));
            && m != [] && m[0] == ERROR && 0 < |m| - 1 <= MAX_PAYLOAD_LEN
            && codec.parse(m[1..]) ==
               Some(if exit.None? then Exited(-1)
                    else if exit.value.signal.Some? then Signaled(exit.value.signal.value)
                    else Exited(exit.value.code))
  {
    var status := StatusOf(ExitOf(exit));
    assert codec.parse(codec.payload(status)) == Some(status);
    assert TerminalMessage(codec, ExitOf(exit))[1..] == codec.payload(status);
  }

  /** The messages for a run of output chunks. */
  function MessagesOf(outputs: seq<seq<byte>>): seq<seq<byte>> {
    if outputs == [] then []
    else MessagesOf(outputs[..|outputs| - 1]) + StdoutMessages(outputs[|outputs| - 1])
  }

  /** The bytes a run of messages carries. */
  function PayloadsOf(messages: seq<seq<byte>>): seq<byte> {
    if messages == [] then []
    else (if messages[0] == [] then [] else messages[0][1..]) + PayloadsOf(messages[1..])
  }

  ghost predicate OutputMessage(message: seq<byte>) {
    message != [] && message[0] == STDOUT && 1 <= |message| - 1 <= MAX_PAYLOAD_LEN
  }

  lemma {:induction false} CarriedPayloads(chunks: seq<seq<byte>>)
    requires forall i :: 0 <= i < |chunks| ==> 0 < |chunks[i]| <= MAX_PAYLOAD_LEN
    ensures PayloadsOf(CarriedAll(chunks)) == Flatten(chunks)
    ensures forall m :: m in CarriedAll(chunks) ==> OutputMessage(m)
    decreases |chunks|
  {
    if chunks != [] {
      CarriedPayloads(chunks[1..]);
      var first := Carried(STDOUT, chunks[0]);
      assert first[1..] == chunks[0];
      assert CarriedAll(chunks)[1..] == CarriedAll(chunks[1..]);
    }
  }

  lemma {:induction false} PayloadsAppend(a: seq<seq<byte>>, b: seq<seq<byte>>)
    ensures PayloadsOf(a + b) == PayloadsOf(a) + PayloadsOf(b)
    decreases |a|
  {
    if a == [] {
      assert a + b == b;
    } else {
      PayloadsAppend(a[1..], b);
      assert (a + b)[1..] == a[1..] + b;
      Associative(if a[0] == [] then [] else a[0][1..], PayloadsOf(a[1..]), PayloadsOf(b));
    }
  }

  /** The messages carry exactly the output received, in order and within the limit. */
  lemma {:induction false} MessagesCarryOutput(outputs: seq<seq<byte>>)
    ensures PayloadsOf(MessagesOf(outputs)) == Flatten(outputs)
    ensures forall m :: m in MessagesOf(outputs) ==> OutputMessage(m)
    decreases |outputs|
  {
    hide PayloadsOf, Flatten, Chunks, CarriedAll;
    if outputs == [] {
      NoPayloads();
    } else {
      var front, last := outputs[..|outputs| - 1], outputs[|outputs| - 1];
      MessagesCarryOutput(front);
      ChunksFit(last);
      CarriedPayloads(Chunks(last));
      PayloadsAppend(MessagesOf(front), StdoutMessages(last));
      FlattenLast(outputs);
    }
  }

  lemma NoPayloads()
    ensures PayloadsOf([]) == [] == Flatten<byte>([])
  {
  }

  datatype Incoming = Binary(bytes: seq<byte>) | Close | Other | Failed

  /** What the serving loop can find ready: the session was reclaimed, the socket,
      the output channel or the exit status has something, or has ended. Another task
      may reclaim the session in between, which the loop need not find out at once. */
  datatype Ready =
    | ReclaimedElsewhere
    | Cancelled
    | FromClient(incoming: Option<Incoming>)
    | FromOutput(chunk: Option<seq<byte>>)
    | FromExit(exit: Option<Exit>)

  function ExitOf(exit: Option<Exit>): Exit {
    if exit.Some? then exit.value else Exit(-1, None)
  }

  predicate Among(ready: seq<(nat, Ready)>, what: Ready) {
    exists k :: 0 <= k < |ready| && ready[k].1 == what
  }

  /** Whether the output channel has ended. */
  predicate OutputClosed(ready: seq<(nat, Ready)>) {
    Among(ready, FromOutput(None))
  }

  /** Whether the loop ends at `k`: a reclaim, the socket's end, a message that breaks
      the contract, or the exit status once the output has ended. */
  predicate Ends(ready: seq<(nat, Ready)>, k: nat)
    requires k < |ready|
  {
    match ready[k].1
    case ReclaimedElsewhere => false
    case Cancelled => true
    case FromClient(Some(Binary(bytes))) => Decode(bytes).None?
    case FromClient(Some(Other)) => false
    case FromClient(_) => true
    case FromOutput(_) => false
    case FromExit(_) => OutputClosed(ready[..k])
  }

  lemma EndsHow(ready: seq<(nat, Ready)>, k: nat)
    requires k < |ready|
    ensures Ends(ready, k) ==
            match ready[k].1
            case ReclaimedElsewhere => false
            case Cancelled => true
            case FromClient(None) => true
            case FromClient(Some(incoming)) => !incoming.Other? && !(incoming.Binary? && Decode(incoming.bytes).Some?)
            case FromOutput(_) => false
            case FromExit(_) => OutputClosed(ready[..k])
  {
    hide Decode, OutputClosed;
  }

  /** The chunks received from the output channel. */
  function OutputsOf(ready: seq<(nat, Ready)>): seq<seq<byte>> {
    if ready == [] then []
    else WithOutput(ready[..|ready| - 1], OutputsOf(ready[..|ready| - 1]), ready[|ready| - 1].1)
  }

  function WithOutput(front: seq<(nat, Ready)>, outputs: seq<seq<byte>>, last: Ready): seq<seq<byte>> {
    if last.FromOutput? && last.chunk.Some? && !OutputClosed(front) then outputs + [last.chunk.value] else outputs
  }

  /** The client's requests. */
  function RequestsOf(ready: seq<(nat, Ready)>): seq<Client> {
    if ready == [] then []
    else WithRequest(RequestsOf(ready[..|ready| - 1]), ready[|ready| - 1].1)
  }

  function WithRequest(requests: seq<Client>, last: Ready): seq<Client> {
    match last
    case FromClient(Some(Binary(bytes))) =>
      if Decode(bytes).Some? then requests + [Decode(bytes).value] else requests
    case _ => requests
  }

  /** When the client or its process was active last: any message but one that ends the
      session, or output. */
  function LastActivity(ready: seq<(nat, Ready)>): Option<nat> {
    if ready == [] then None
    else WithActivity(ready[..|ready| - 1], LastActivity(ready[..|ready| - 1]), ready[|ready| - 1])
  }

  function WithActivity(front: seq<(nat, Ready)>, activity: Option<nat>, last: (nat, Ready)): Option<nat> {
    match last.1
    case FromClient(Some(Binary(_))) => Some(last.0)
    case FromClient(Some(Other)) => Some(last.0)
    case FromOutput(Some(_)) => if OutputClosed(front) then activity else Some(last.0)
    case _ => activity
  }

  /** The stage of a session whose last activity was at `activity`. */
  function Renewed(stage: P.Stage, activity: Option<nat>): P.Stage {
    if stage.Attached? && activity.Some? then P.Attached(activity.value + P.IDLE) else stage
  }

  /** Messages sent while the session was reclaimed, or was not. */
  function Sent(messages: seq<seq<byte>>, reclaimed: bool): seq<(seq<byte>, bool)> {
    seq(|messages|, i requires 0 <= i < |messages| => (messages[i], reclaimed))
  }

  lemma SentSnoc(messages: seq<seq<byte>>, reclaimed: bool, message: seq<byte>)
    ensures Sent(messages + [message], reclaimed) == Sent(messages, reclaimed) + [(message, reclaimed)]
  {
  }

  /** Whether another task has reclaimed the session. */
  predicate ReclaimedBy(ready: seq<(nat, Ready)>) {
    Among(ready, ReclaimedElsewhere)
  }

  /** The output messages, each with whether the session was reclaimed by then; `gone`
      says whether it was at the start. */
  function LogOf(ready: seq<(nat, Ready)>, gone: bool): seq<(seq<byte>, bool)> {
    if ready == [] then []
    else WithMessages(ready[..|ready| - 1], LogOf(ready[..|ready| - 1], gone), gone, ready[|ready| - 1].1)
  }

  function WithMessages(front: seq<(nat, Ready)>, log: seq<(seq<byte>, bool)>, gone: bool, last: Ready):
      seq<(seq<byte>, bool)> {
    if last.FromOutput? && last.chunk.Some? && !OutputClosed(front)
    then log + Sent(StdoutMessages(last.chunk.value), gone || ReclaimedBy(front))
    else log
  }

  /** The log's messages are those of the output, and those sent before the session was
      reclaimed are before those sent after. */
  lemma {:induction false} LogIsOutput(ready: seq<(nat, Ready)>, gone: bool)
    ensures var log, messages := LogOf(ready, gone), MessagesOf(OutputsOf(ready));
            && |log| == |messages| && (forall i :: 0 <= i < |log| ==> log[i].0 == messages[i])
            && (forall i, j :: 0 <= i < j < |log| && log[i].1 ==> log[j].1)
            && (gone ==> forall i :: 0 <= i < |log| ==> log[i].1)
            && (!gone && !ReclaimedBy(ready) ==> forall i :: 0 <= i < |log| ==> !log[i].1)
    decreases |ready|
  {
    hide StdoutMessages, MessagesOf, OutputsOf, OutputClosed, ReclaimedBy, LogOf;
    Nothing(ready, gone);
    if ready == [] {
      assert ready[..0] == ready;
    } else {
      var k := |ready| - 1;
      LogIsOutput(ready[..k], gone);
      OneMore(ready, gone, k);
      assert ready[..k + 1] == ready;
      if OutputsOf(ready) != OutputsOf(ready[..k]) {
        MessagesSnoc(OutputsOf(ready[..k]), ready[k].1.chunk.value);
      }
    }
  }

  lemma MessagesSnoc(outputs: seq<seq<byte>>, output: seq<byte>)
    ensures MessagesOf(outputs + [output]) == MessagesOf(outputs) + StdoutMessages(output)
  {
    assert (outputs + [output])[..|outputs|] == outputs;
  }

  lemma Nothing(ready: seq<(nat, Ready)>, gone: bool)
    ensures RequestsOf(ready[..0]) == [] && OutputsOf(ready[..0]) == [] && LogOf(ready[..0], gone) == []
    ensures LastActivity(ready[..0]).None?
    ensures !OutputClosed(ready[..0]) && !ReclaimedBy(ready[..0]) && MessagesOf([]) == []
  {
  }

  lemma OneMore(ready: seq<(nat, Ready)>, gone: bool, k: nat)
    requires k < |ready|
    ensures var front, next, last := ready[..k], ready[..k + 1], ready[k].1;
            && OutputClosed(next) == (OutputClosed(front) || last == FromOutput(None))
            && ReclaimedBy(next) == (ReclaimedBy(front) || last == ReclaimedElsewhere)
            && OutputsOf(next) == WithOutput(front, OutputsOf(front), last)
            && LogOf(next, gone) == WithMessages(front, LogOf(front, gone), gone, last)
            && RequestsOf(next) == WithRequest(RequestsOf(front), last)
            && LastActivity(next) == WithActivity(front, LastActivity(front), ready[k])
  {
    hide WithActivity, Among, Decode, WithMessages, WithOutput, WithRequest;
    assert ready[..k + 1][..k] == ready[..k];
    Seen(ready, k, FromOutput(None));
    Seen(ready, k, ReclaimedElsewhere);
  }

  lemma Seen(ready: seq<(nat, Ready)>, k: nat, what: Ready)
    requires k < |ready|
    ensures Among(ready[..k + 1], what) <==> Among(ready[..k], what) || ready[k].1 == what
  {
    var front, next := ready[..k], ready[..k + 1];
    assert next == front + [ready[k]];
    if Among(front, what) {
      var j :| 0 <= j < |front| && front[j].1 == what;
      assert next[j].1 == what;
    }
    if ready[k].1 == what {
      assert next[k].1 == what;
    }
  }

  /** The write side of the socket: it takes `capacity` messages, then the peer is
      gone. The log notes whether the session was reclaimed when each was sent. */
  class Sink {
    const capacity: nat
    var log: seq<(seq<byte>, bool)>
    var closed: bool

    constructor (capacity: nat)
      ensures this.capacity == capacity && log == [] && !closed
    {
      this.capacity, log, closed := capacity, [], false;
    }

    method Send(message: seq<byte>, reclaimed: bool) returns (ok: bool)
      modifies this`log
      ensures ok == (|old(log)| < capacity)
      ensures log == if ok then old(log) + [(message, reclaimed)] else old(log)
    {
      ok := |log| < capacity;
      if ok {
        log := log + [(message, reclaimed)];
      }
    }

    method Close()
      modifies this`closed
      ensures closed
    {
      closed := true;
    }
  }

  /** The process behind a session: what kills it and what carries its input and
      output, each taken out of its place when used. */
  class ProcessHandle {
    var killer: bool
    var reader: bool
    var readerAborts: nat
    var writer: bool
    var waiter: bool
    var kills: nat
    var aborts: nat
    var requests: seq<Client>

    /** The kill and every abort are spent or still to come. */
    ghost predicate Accounted(helpers: nat)
      reads this
    {
      && kills + (if killer then 1 else 0) == 1
      && aborts + (if reader then 1 else 0) + readerAborts + (if writer then 1 else 0) == helpers
    }

    constructor (readerAborts: nat)
      ensures Accounted(readerAborts + 2) && killer && waiter && kills == 0 && requests == []
    {
      killer, reader, writer, waiter := true, true, true, true;
      this.readerAborts := readerAborts;
      kills, aborts, requests := 0, 0, [];
    }

    method RequestTerminate()
      modifies this`killer, this`kills
      ensures !killer && kills == old(kills) + if old(killer) then 1 else 0
    {
      if killer {
        killer := false;
        kills := kills + 1;
      }
    }

    /** Kills once, aborts every helper once, and lets go of the waiter without an
        abort, so that it still reaps the child; a second call does nothing. */
    method Terminate()
      modifies this
      ensures requests == old(requests)
      ensures !killer && !reader && readerAborts == 0 && !writer && !waiter
      ensures forall n: nat :: old(Accounted(n)) ==> Accounted(n) && kills == 1 && aborts == n
    {
      RequestTerminate();
      if reader {
        reader := false;
        aborts := aborts + 1;
      }
      while readerAborts > 0
        invariant !reader && !killer && requests == old(requests)
        invariant forall n: nat :: old(Accounted(n)) ==> Accounted(n)
      {
        readerAborts := readerAborts - 1;
        aborts := aborts + 1;
      }
      if writer {
        writer := false;
        aborts := aborts + 1;
      }
      waiter := false;
    }

    method Take(request: Client)
      modifies this`requests
      ensures requests == old(requests) + [request]
    {
      requests := requests + [request];
    }
  }

  class Session {
    const scope: string
    const process: ProcessHandle
    var attachment: bool
    var stage: P.Stage
    var stopped: bool

    constructor (scope: string, process: ProcessHandle, now: nat)
      ensures this.scope == scope && this.process == process
      ensures attachment && stage == P.Pending(now + P.PENDING) && !stopped
    {
      this.scope, this.process := scope, process;
      attachment, stage, stopped := true, P.Pending(now + P.PENDING), false;
    }

    /** Reclaimed, with nothing left to hand out or to kill. */
    ghost predicate Gone()
      reads this, process
    {
      stage.Reclaimed? && !attachment && stopped && !process.killer
    }

    method Claim(caller: string, now: nat) returns (attached: bool)
      modifies this`attachment, this`stage
      ensures attached <==> caller == scope && old(stage).Pending? && old(attachment)
      ensures stage == if caller == scope && old(stage).Pending? then P.Attached(now + P.IDLE) else old(stage)
      ensures attachment == (old(attachment) && !attached)
    {
      if scope != caller {
        return false;
      }
      if !stage.Pending? {
        return false;
      }
      stage := P.Attached(now + P.IDLE);
      attached := attachment;
      attachment := false;
    }

    method Touch(now: nat)
      modifies this`stage
      ensures stage == if old(stage).Attached? then P.Attached(now + P.IDLE) else old(stage)
    {
      if stage.Attached? {
        stage := P.Attached(now + P.IDLE);
      }
    }

    method Reclaim()
      modifies this`attachment, this`stage, this`stopped, process
      ensures stage.Reclaimed? && process.requests == old(process.requests)
      ensures old(stage).Reclaimed? ==>
                attachment == old(attachment) && stopped == old(stopped) && process.killer == old(process.killer)
      ensures !old(stage).Reclaimed? ==> Gone()
    {
      if stage.Reclaimed? {
        return;
      }
      stage := P.Reclaimed;
      attachment := false;
      stopped := true;
      process.Terminate();
    }

    /** Passes a client's message on to the process, if it keeps to the contract. */
    method Apply(bytes: seq<byte>, now: nat) returns (ok: bool)
      modifies this`stage, process`requests
      ensures ok <==> Decode(bytes).Some?
      ensures process.requests == if ok then old(process.requests) + [Decode(bytes).value] else old(process.requests)
      ensures stage == if old(stage).Attached? then P.Attached(now + P.IDLE) else old(stage)
    {
      hide Decode;
      Touch(now);
      var request := Decode(bytes);
      ok := request.Some?;
      if ok {
        process.Take(request.value);
      }
    }

    /** Serves the client until its end. `ready` is what the loop finds ready, with
        the time, in the order it is taken up, and the reclaims by others between. */
    method Run(codec: Codec, ready: seq<(nat, Ready)>, sink: Sink)
      returns (taken: nat, over: bool, broken: bool, terminal: Option<Exit>)
      modifies this`attachment, this`stage, this`stopped, process, sink
      ensures taken <= |ready|
      // The loop stops at the first thing that ends it, or where the peer is gone.
      ensures forall k :: 0 <= k < taken - 1 ==> !Ends(ready, k)
      ensures over && !broken ==> taken > 0 && Ends(ready, taken - 1)
      ensures !over ==> taken == |ready| && !broken && terminal.None? && (taken > 0 ==> !Ends(ready, taken - 1))
      ensures over ==> stage.Reclaimed? && sink.closed
      ensures !over ==> (stage.Reclaimed? <==> old(stage).Reclaimed? || ReclaimedBy(ready))
      // Until it is reclaimed the deadline follows the last activity.
      ensures !stage.Reclaimed? ==> stage == Renewed(old(stage), LastActivity(ready))
      // The client's requests reach the process in order.
      ensures process.requests == old(process.requests) + RequestsOf(ready[..taken])
      // The exit status is taken up once the output has ended.
      ensures terminal == if over && !broken && ready[taken - 1].1.FromExit?
                          then Some(ExitOf(ready[taken - 1].1.exit)) else None
      ensures terminal.Some? ==> OutputClosed(ready[..taken - 1])
      // Output messages in order, then at most the terminal one, sent after the reclaim.
      ensures !broken ==>
                sink.log == old(sink.log) + LogOf(ready[..taken], old(stage).Reclaimed?)
                            + if terminal.Some?
                                 && |old(sink.log) + LogOf(ready[..taken], old(stage).Reclaimed?)| < sink.capacity
                              then [(TerminalMessage(codec, terminal.value), true)] else []
      // A part of them where the peer is gone.
      ensures broken ==>
                && |sink.log| >= sink.capacity
                && CutShort(old(sink.log), LogOf(ready[..taken], old(stage).Reclaimed?), sink.log)
    {
      hide StdoutMessages, Decode, RequestsOf, OutputsOf, OutputClosed, ReclaimedBy, LogOf, Sent, Among, ExitOf, TerminalMessage, LastActivity;
      hide Gone, CutShort, Ends;
      var outputEnded := false;
      taken, over, broken, terminal := 0, false, false, None;
      ghost var log, gone := sink.log, stage.Reclaimed?;
      Nothing(ready, gone);
      assert log + [] == log && process.requests + [] == process.requests;
      while taken < |ready| && !over
        invariant taken <= |ready|
        invariant forall k :: 0 <= k < taken - 1 ==> !Ends(ready, k)
        invariant !over && taken > 0 ==> !Ends(ready, taken - 1)
        invariant over && !broken ==> taken > 0 && Ends(ready, taken - 1)
        invariant broken ==> over
        invariant outputEnded == OutputClosed(ready[..taken])
        invariant process.requests == old(process.requests) + RequestsOf(ready[..taken])
        invariant terminal == if over && !broken && ready[taken - 1].1.FromExit?
                              then Some(ExitOf(ready[taken - 1].1.exit)) else None
        invariant terminal.Some? ==> OutputClosed(ready[..taken - 1])
        invariant stage.Reclaimed? == (gone || ReclaimedBy(ready[..taken]))
        invariant !over && !stage.Reclaimed? ==> stage == Renewed(old(stage), LastActivity(ready[..taken]))
        invariant !broken ==> sink.log == log + LogOf(ready[..taken], gone)
        invariant broken ==> CutShort(log, LogOf(ready[..taken], gone), sink.log) && |sink.log| >= sink.capacity
        decreases |ready| - taken
      {
        var (now, event) := ready[taken];
        OneMore(ready, gone, taken);
        EndsHow(ready, taken);
        taken := taken + 1;
        match event {
          case ReclaimedElsewhere => Reclaim();
          case Cancelled => over := true;
          case FromClient(incoming) =>
            match incoming {
              case Some(Binary(bytes)) =>
                var applied := Apply(bytes, now);
                over := !applied;
                if applied {
                  Associative(old(process.requests), RequestsOf(ready[..taken - 1]), [Decode(bytes).value]);
                }
              case Some(Other) => Touch(now);
              case _ => over := true;
            }
          case FromOutput(chunk) =>
            if !outputEnded {
              if chunk.None? {
                outputEnded := true;
              } else {
                broken := SendAll(StdoutMessages(chunk.value), log, LogOf(ready[..taken - 1], gone), sink);
                over := broken;
                if !broken {
                  Touch(now);
                }
              }
            }
          case FromExit(exit) =>
            if outputEnded {
              terminal := Some(ExitOf(exit));
              over := true;
            }
        }
      }
      if over {
        Reclaim();
        if terminal.Some? {
          var sent := sink.Send(TerminalMessage(codec, terminal.value), stage.Reclaimed?);
        }
        sink.Close();
      } else {
        assert ready[..taken] == ready;
      }
      assert sink.log == sink.log + [];
    }

    /** Sends one chunk's messages until the peer is gone. */
    method SendAll(messages: seq<seq<byte>>, ghost log: seq<(seq<byte>, bool)>, ghost before: seq<(seq<byte>, bool)>,
                   sink: Sink) returns (broken: bool)
      requires sink.log == log + before
      modifies sink`log
      ensures !broken ==> sink.log == log + (before + Sent(messages, stage.Reclaimed?))
      ensures broken ==>
                CutShort(log, before + Sent(messages, stage.Reclaimed?), sink.log) && |sink.log| >= sink.capacity
    {
      hide Sent, CutShort;
      NoneSent(stage.Reclaimed?);
      assert messages[..0] == [] && before + [] == before;
      for i := 0 to |messages|
        invariant sink.log == log + (before + Sent(messages[..i], stage.Reclaimed?))
      {
        var ok := sink.Send(messages[i], stage.Reclaimed?);
        if !ok {
          PartSent(log, before, messages, i, stage.Reclaimed?);
          return true;
        }
        OneSent(log, before, messages, i, stage.Reclaimed?);
      }
      assert messages[..|messages|] == messages;
      broken := false;
    }
  }

  /** Not all of `whole` was added to the log. */
  ghost predicate CutShort(log: seq<(seq<byte>, bool)>, whole: seq<(seq<byte>, bool)>, now: seq<(seq<byte>, bool)>) {
    exists sent :: sent < whole && now == log + sent
  }

  lemma OneSent(log: seq<(seq<byte>, bool)>, before: seq<(seq<byte>, bool)>, messages: seq<seq<byte>>, i: nat,
                reclaimed: bool)
    requires i < |messages|
    ensures (log + (before + Sent(messages[..i], reclaimed))) + [(messages[i], reclaimed)] ==
            log + (before + Sent(messages[..i + 1], reclaimed))
  {
    hide Sent;
    assert messages[..i + 1] == messages[..i] + [messages[i]];
    SentSnoc(messages[..i], reclaimed, messages[i]);
    Associative(before, Sent(messages[..i], reclaimed), [(messages[i], reclaimed)]);
    Associative(log, before + Sent(messages[..i], reclaimed), [(messages[i], reclaimed)]);
  }

  lemma NoneSent(reclaimed: bool)
    ensures Sent([], reclaimed) == []
  {
  }

  lemma PartSent(log: seq<(seq<byte>, bool)>, before: seq<(seq<byte>, bool)>, messages: seq<seq<byte>>, i: nat,
                 reclaimed: bool)
    requires i < |messages|
    ensures CutShort(log, before + Sent(messages, reclaimed), log + (before + Sent(messages[..i], reclaimed)))
  {
    var sent, whole := Sent(messages[..i], reclaimed), Sent(messages, reclaimed);
    assert sent < whole;
    assert before + sent < before + whole;
  }

  /** Session ids: the server run's process id and a serial number. */
  function IdOf(run: string, serial: nat): string {
    "pty-" + run + "-" + Decimal(serial)
  }

  lemma IdsDiffer(run: string, m: nat, n: nat)
    requires m != n
    ensures IdOf(run, m) != IdOf(run, n)
  {
    hide Decimal;
    var prefix := "pty-" + run + "-";
    assert IdOf(run, m)[|prefix|..] == Decimal(m) && IdOf(run, n)[|prefix|..] == Decimal(n);
    if Decimal(m) == Decimal(n) {
      DecimalInjective(m, n);
    }
  }

  /** The sessions of one server run by id. */
  class Sessions {
    const run: string
    var table: map<string, Session>
    var serial: nat

    /** Ids in use have been handed out, and no two ids share a session or process. */
    ghost predicate Valid()
      reads this
    {
      && (forall id :: id in table ==> exists n :: 0 <= n < serial && id == IdOf(run, n))
      && Apart(table)
    }

    constructor (run: string)
      ensures this.run == run && table == map[] && Valid()
    {
      this.run, table, serial := run, map[], 0;
    }

    method Create(session: Session) returns (id: string)
      requires Valid()
      requires forall other :: other in table ==> table[other] != session && table[other].process != session.process
      modifies this
      ensures Valid() && id !in old(table) && table == old(table)[id := session]
    {
      id := IdOf(run, serial);
      if id in table {
        var n :| 0 <= n < serial && id == IdOf(run, n);
        IdsDiffer(run, n, serial);
      }
      serial := serial + 1;
      table := table[id := session];
    }

    /** Attaches a caller to the session it names, if that is there, is the caller's
        and has not been claimed. */
    method Attach(caller: string, id: string, now: nat) returns (attached: Option<Session>)
      requires Valid()
      modifies table.Values
      ensures attached.Some? <==>
                id in table && caller == table[id].scope && old(table[id].stage).Pending? && old(table[id].attachment)
      ensures attached.Some? ==>
                attached.value == table[id] && !table[id].attachment && table[id].stage == P.Attached(now + P.IDLE)
      ensures forall other :: other in table && other != id ==>
                table[other].stage == old(table[other].stage) && table[other].attachment == old(table[other].attachment)
    {
      if id !in table {
        return None;
      }
      var taken := table[id].Claim(caller, now);
      attached := if taken then Some(table[id]) else None;
    }

    /** One tick of the reaper: sessions reclaimed before leave the table, and those
        whose deadline has passed are reclaimed; the rest are left alone. */
    method Reap(now: nat)
      requires Valid()
      modifies this, table.Values, set id | id in table :: table[id].process
      ensures Valid()
      ensures table == map id | id in old(table) && !old(table[id].stage).Reclaimed? :: old(table)[id]
      ensures forall id :: id in table && old(P.Expired(table[id].stage, now)) ==> table[id].Gone()
      ensures forall id :: id in table && !old(P.Expired(table[id].stage, now)) ==> Untouched(table[id])
    {
      hide IdOf, Session.Gone;
      table := map id | id in table && !table[id].stage.Reclaimed? :: table[id];
      var expired := set id | id in table && P.Expired(table[id].stage, now);
      ReclaimAll(table, expired);
    }
  }

  /** Sessions and processes that are not shared between ids. */
  ghost predicate Apart(table: map<string, Session>) {
    forall id, other :: id in table && other in table && id != other ==>
      table[id] != table[other] && table[id].process != table[other].process
  }

  method ReclaimAll(table: map<string, Session>, ids: set<string>)
    requires Apart(table) && ids <= table.Keys && forall id :: id in ids ==> !table[id].stage.Reclaimed?
    modifies set id | id in ids :: table[id], set id | id in ids :: table[id].process
    ensures forall id :: id in ids ==> table[id].Gone()
  {
    hide Session.Gone;
    var left := ids;
    while left != {}
      invariant left <= ids
      invariant forall id :: id in left ==> Untouched(table[id])
      invariant forall id :: id in ids - left ==> table[id].Gone()
      decreases |left|
    {
      var id :| id in left;
      left := left - {id};
      table[id].Reclaim();
    }
  }

  twostate predicate Untouched(session: Session)
    reads session, session.process
  {
    && session.stage == old(session.stage) && session.attachment == old(session.attachment)
    && session.stopped == old(session.stopped) && session.process.killer == old(session.process.killer)
  }
}
