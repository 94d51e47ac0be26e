/** One exec request as a protocol: two pumps read the child's output and the
    waiter reports its status over a bounded channel, while the consumer collects
    until a deadline and then either answers directly or hands the events over to
    a stream. A schedule is a sequence of moves; every schedule is considered. */
module Pipeline {
  import opened Text
  import opened Frames

  /** The events the channel buffers. */
  const BUFFER: nat := 16

  /** What one read of a pipe gives; no bytes means the end of the output. */
  datatype Read = Data(bytes: seq<byte>) | Interrupted | Broken

  /** What the child does: the reads its two pipes give, and how it ends. */
  datatype Child = Child(out: seq<Read>, err: seq<Read>, status: Status)

  datatype Pump = Reading(left: seq<Read>) | Holding(bytes: seq<byte>, left: seq<Read>) | Stopped

  datatype Waiter = Waiting | Joining | Reporting | Finished

  /** `Answered` and `Closed` are the two ways a request ends well, `Dropped` is
      the client gone. */
  datatype Consumer =
    | Collecting(consumed: seq<Event>)
    | Streaming(sent: seq<Event>, replay: seq<Event>)
    | Answered(consumed: seq<Event>)
    | Closed(sent: seq<Event>)
    | Dropped(sent: seq<Event>)

  datatype Request = Request(out: Pump, err: Pump, waiter: Waiter, queue: seq<Event>, consumer: Consumer)

  datatype Move = PumpOut | PumpErr | Exit | Join | Report | Receive | Deadline | Disconnect

  /** A `wait` of zero streams from the first byte. */
  function Start(child: Child, waits: bool): Request {
    Request(Reading(child.out), Reading(child.err), Waiting, [],
          if waits then Collecting([]) else Streaming([], []))
  }

  predicate Open(s: Request) {
    s.consumer.Collecting? || s.consumer.Streaming?
  }

  /** All senders are gone, so an empty channel is the end of the events. */
  predicate SendersGone(s: Request) {
    s.out.Stopped? && s.err.Stopped? && s.waiter.Finished?
  }

  function Label(toOut: bool, bytes: seq<byte>): Event {
    if toOut then Stdout(bytes) else Stderr(bytes)
  }

  /** One step of a pump: the pump and the channel after it. */
  function Pumped(p: Pump, toOut: bool, queue: seq<Event>, open: bool): Option<(Pump, seq<Event>)> {
    match p
    case Stopped => None
    case Reading(left) =>
      if left == [] || left[0] == Data([]) || left[0].Broken? then Some((Stopped, queue))
      else if left[0].Interrupted? then Some((Reading(left[1..]), queue))
      else Some((Holding(left[0].bytes, left[1..]), queue))
    case Holding(bytes, left) =>
      if !open then Some((Stopped, queue))
      else if |queue| < BUFFER then Some((Reading(left), queue + [Label(toOut, bytes)]))
      else None
  }

  /** One step of the consumer on the channel. */
  function Received(s: Request): Option<Request> {
    match s.consumer
    case Collecting(consumed) =>
      if s.queue != [] then
        var next := consumed + [s.queue[0]];
        Some(s.(queue := s.queue[1..],
                consumer := if s.queue[0].Terminal? then Answered(next) else Collecting(next)))
      else if SendersGone(s) then Some(s.(consumer := Streaming([], consumed)))
      else None
    case Streaming(sent, replay) =>
      if replay != [] then Some(s.(consumer := Streaming(sent + [replay[0]], replay[1..])))
      else if s.queue != [] then
        Some(s.(queue := s.queue[1..], consumer := Streaming(sent + [s.queue[0]], [])))
      else if SendersGone(s) then Some(s.(consumer := Closed(sent)))
      else None
    case _ => None
  }

  /** One move of a schedule, when it is possible. */
  function Apply(child: Child, s: Request, move: Move): Option<Request> {
    match move
    case PumpOut =>
      var r := Pumped(s.out, true, s.queue, Open(s));
      if r.None? then None else Some(s.(out := r.value.0, queue := r.value.1))
    case PumpErr =>
      var r := Pumped(s.err, false, s.queue, Open(s));
      if r.None? then None else Some(s.(err := r.value.0, queue := r.value.1))
    case Exit => if s.waiter.Waiting? then Some(s.(waiter := Joining)) else None
    case Join =>
      if s.waiter.Joining? && s.out.Stopped? && s.err.Stopped? then Some(s.(waiter := Reporting)) else None
    case Report =>
      if !s.waiter.Reporting? then None
      else if !Open(s) then Some(s.(waiter := Finished))
      else if |s.queue| < BUFFER then
        Some(s.(waiter := Finished, queue := s.queue + [Terminal(child.status)]))
      else None
    case Receive => Received(s)
    case Deadline =>
      if s.consumer.Collecting? then Some(s.(consumer := Streaming([], s.consumer.consumed))) else None
    case Disconnect =>
      if s.consumer.Collecting? then Some(s.(queue := [], consumer := Dropped([])))
      else if s.consumer.Streaming? then Some(s.(queue := [], consumer := Dropped(s.consumer.sent)))
      else None
  }

  /** The state a schedule leads to, if every move of it is possible in turn. */
  function Execute(child: Child, s: Request, moves: seq<Move>): Option<Request> {
    if moves == [] then Some(s)
    else
      var before := Execute(child, s, moves[..|moves| - 1]);
      if before.None? then None else Apply(child, before.value, moves[|moves| - 1])
  }

  /** The chunks one of the two streams contributes to a list of events. */
  function Project(events: seq<Event>, ofOut: bool): seq<seq<byte>> {
    if events == [] then []
    else
      var last := events[|events| - 1];
      Project(events[..|events| - 1], ofOut)
      + if (ofOut && last.Stdout?) || (!ofOut && last.Stderr?) then [last.data] else []
  }

  lemma ProjectSnoc(events: seq<Event>, e: Event, ofOut: bool)
    ensures Project(events + [e], ofOut) ==
            Project(events, ofOut) + if (ofOut && e.Stdout?) || (!ofOut && e.Stderr?) then [e.data] else []
  {
    assert (events + [e])[..|events|] == events;
  }

  /** The chunks a pipe gives before it ends or breaks. */
  function Reads(left: seq<Read>): seq<seq<byte>> {
    if left == [] || left[0] == Data([]) || left[0].Broken? then []
    else if left[0].Interrupted? then Reads(left[1..])
    else [left[0].bytes] + Reads(left[1..])
  }

  /** What a pump has yet to send. */
  function Ahead(p: Pump): seq<seq<byte>> {
    match p
    case Reading(left) => Reads(left)
    case Holding(bytes, left) => [bytes] + Reads(left)
    case Stopped => []
  }

  /** Everything that has left the pumps and the waiter, in channel order. */
  function Emitted(s: Request): seq<Event> {
    match s.consumer
    case Collecting(consumed) => consumed + s.queue
    case Streaming(sent, replay) => (sent + replay) + s.queue
    case Answered(consumed) => consumed + s.queue
    case Closed(sent) => sent + s.queue
    case Dropped(sent) => sent
  }

  /** Nothing is lost, duplicated or reordered on the way. */
  ghost predicate Conserves(child: Child, s: Request) {
    && Project(Emitted(s), true) + Ahead(s.out) == Reads(child.out)
    && Project(Emitted(s), false) + Ahead(s.err) == Reads(child.err)
  }

  /** The status is sent once, after all output, as the last event. */
  ghost predicate StatusLast(child: Child, s: Request) {
    if s.waiter.Finished? then
      exists output :: OutputOnly(output) && Emitted(s) == output + [Terminal(child.status)]
    else OutputOnly(Emitted(s))
  }

  ghost predicate Consistent(child: Child, s: Request) {
    && |s.queue| <= BUFFER
    && (s.waiter.Reporting? || s.waiter.Finished? ==> s.out.Stopped? && s.err.Stopped?)
    && (if s.consumer.Dropped? then
          Project(s.consumer.sent, true) <= Reads(child.out) && Project(s.consumer.sent, false) <= Reads(child.err)
        else
          && Conserves(child, s) && StatusLast(child, s)
          && (s.consumer.Collecting? ==> OutputOnly(s.consumer.consumed))
          && (s.consumer.Answered? || s.consumer.Closed? ==> SendersGone(s) && s.queue == []))
  }

  lemma OutputAppend(a: seq<Event>, e: Event)
    requires OutputOnly(a) && !e.Terminal?
    ensures OutputOnly(a + [e])
  {
  }

  lemma StartConsistent(child: Child, waits: bool)
    ensures Consistent(child, Start(child, waits))
  {
    var s := Start(child, waits);
    assert Emitted(s) == [];
    assert [] + Reads(child.out) == Reads(child.out) && [] + Reads(child.err) == Reads(child.err);
  }

  /** A pump's step moves its next chunk to the channel or keeps both. */
  lemma PumpedKeeps(p: Pump, toOut: bool, queue: seq<Event>)
    ensures var r := Pumped(p, toOut, queue, true);
            r.Some? ==>
              var (next, after) := r.value;
              || (after == queue && Ahead(next) == Ahead(p))
              || (p.Holding? && |queue| < BUFFER && after == queue + [Label(toOut, p.bytes)]
                  && Ahead(p) == [p.bytes] + Ahead(next))
  {
  }

  /** A chunk that enters the channel is the next one its stream owes. */
  lemma ConservesSend(events: seq<Event>, bytes: seq<byte>, toOut: bool, ahead: seq<seq<byte>>, total: seq<seq<byte>>)
    requires Project(events, toOut) + ([bytes] + ahead) == total
    ensures Project(events + [Label(toOut, bytes)], toOut) + ahead == total
    ensures Project(events + [Label(toOut, bytes)], !toOut) == Project(events, !toOut)
  {
    hide Project;
    ProjectSnoc(events, Label(toOut, bytes), toOut);
    ProjectSnoc(events, Label(toOut, bytes), !toOut);
    Associative(Project(events, toOut), [bytes], ahead);
    assert Project(events, !toOut) + [] == Project(events, !toOut);
  }

  lemma EmittedSend(s: Request, e: Event)
    requires Open(s)
    ensures Emitted(s.(queue := s.queue + [e])) == Emitted(s) + [e]
  {
    match s.consumer
    case Collecting(consumed) => Associative(consumed, s.queue, [e]);
    case Streaming(sent, replay) => Associative(sent + replay, s.queue, [e]);
    case _ =>
  }

  lemma PumpOutKeeps(child: Child, s: Request)
    requires Consistent(child, s) && Apply(child, s, PumpOut).Some?
    ensures Consistent(child, Apply(child, s, PumpOut).value)
  {
    hide Project, Reads, OutputOnly, Pumped, Ahead, StatusLast;
    PumpStops(s.out, true, s.queue, Open(s));
    var t := Apply(child, s, PumpOut).value;
    if Open(s) {
      PumpedKeeps(s.out, true, s.queue);
      if t.queue != s.queue {
        EmittedSend(s, Label(true, s.out.bytes));
        ConservesSend(Emitted(s), s.out.bytes, true, Ahead(t.out), Reads(child.out));
        StatusSend(child, s, t, Label(true, s.out.bytes));
      } else {
        StatusSame(child, s, t);
      }
    } else if !s.consumer.Dropped? {
      assert false;
    }
  }

  lemma PumpErrKeeps(child: Child, s: Request)
    requires Consistent(child, s) && Apply(child, s, PumpErr).Some?
    ensures Consistent(child, Apply(child, s, PumpErr).value)
  {
    hide Project, Reads, OutputOnly, Pumped, Ahead, StatusLast;
    PumpStops(s.err, false, s.queue, Open(s));
    var t := Apply(child, s, PumpErr).value;
    if Open(s) {
      PumpedKeeps(s.err, false, s.queue);
      if t.queue != s.queue {
        EmittedSend(s, Label(false, s.err.bytes));
        ConservesSend(Emitted(s), s.err.bytes, false, Ahead(t.err), Reads(child.err));
        StatusSend(child, s, t, Label(false, s.err.bytes));
      } else {
        StatusSame(child, s, t);
      }
    } else if !s.consumer.Dropped? {
      assert false;
    }
  }

  lemma PumpStops(p: Pump, toOut: bool, queue: seq<Event>, open: bool)
    ensures p.Stopped? ==> Pumped(p, toOut, queue, open).None?
    ensures !open && Pumped(p, toOut, queue, open).Some? ==> Pumped(p, toOut, queue, open).value.1 == queue
  {
  }

  lemma StatusSend(child: Child, s: Request, t: Request, e: Event)
    requires StatusLast(child, s) && !s.waiter.Finished? && t.waiter == s.waiter
    requires Emitted(t) == Emitted(s) + [e] && !e.Terminal?
    ensures StatusLast(child, t)
  {
  }

  lemma StatusSame(child: Child, s: Request, t: Request)
    requires StatusLast(child, s) && t.waiter.Finished? == s.waiter.Finished? && Emitted(t) == Emitted(s)
    ensures StatusLast(child, t)
  {
  }

  lemma ReportKeeps(child: Child, s: Request)
    requires Consistent(child, s) && Apply(child, s, Report).Some?
    ensures Consistent(child, Apply(child, s, Report).value)
  {
    hide Project, Reads, OutputOnly;
    var t := Apply(child, s, Report).value;
    if Open(s) {
      EmittedSend(s, Terminal(child.status));
      ProjectSnoc(Emitted(s), Terminal(child.status), true);
      ProjectSnoc(Emitted(s), Terminal(child.status), false);
      assert Emitted(t) == Emitted(s) + [Terminal(child.status)];
    }
  }

  /** Receiving keeps what was emitted. */
  lemma ReceivedKeeps(s: Request)
    ensures Received(s).Some? ==> Emitted(Received(s).value) == Emitted(s)
  {
    if s.queue != [] {
      assert s.queue == [s.queue[0]] + s.queue[1..];
      match s.consumer
      case Collecting(consumed) => Associative(consumed, [s.queue[0]], s.queue[1..]);
      case Streaming(sent, replay) =>
        if replay == [] {
          assert sent + replay == sent && (sent + [s.queue[0]]) + [] == sent + [s.queue[0]];
          Associative(sent, [s.queue[0]], s.queue[1..]);
        }
      case _ =>
    }
    match s.consumer
    case Collecting(consumed) => assert [] + consumed == consumed;
    case Streaming(sent, replay) =>
      if replay != [] {
        assert replay == [replay[0]] + replay[1..];
        Associative(sent, [replay[0]], replay[1..]);
      } else {
        assert sent + replay == sent;
      }
    case _ =>
  }

  /** The first event still queued is the status only when it is the last of all. */
  lemma StatusIsLast(child: Child, s: Request, front: seq<Event>)
    requires StatusLast(child, s) && s.queue != [] && Emitted(s) == front + s.queue
    ensures s.queue[0].Terminal? ==> s.waiter.Finished? && s.queue[1..] == []
  {
    var at := |front|;
    assert Emitted(s)[at] == s.queue[0];
  }

  lemma ReceiveKeeps(child: Child, s: Request)
    requires Consistent(child, s) && Received(s).Some?
    ensures Consistent(child, Received(s).value)
  {
    hide Project, Reads, Conserves, StatusLast, OutputOnly, Emitted;
    var t := Received(s).value;
    ReceivedKeeps(s);
    StatusSame(child, s, t);
    ConservesSame(child, s, t);
    if s.consumer.Collecting? && s.queue != [] {
      EmittedFront(s);
      StatusIsLast(child, s, s.consumer.consumed);
      if !s.queue[0].Terminal? {
        OutputAppend(s.consumer.consumed, s.queue[0]);
      }
    }
  }

  lemma EmittedFront(s: Request)
    requires s.consumer.Collecting?
    ensures Emitted(s) == s.consumer.consumed + s.queue
  {
  }

  lemma ConservesSame(child: Child, s: Request, t: Request)
    requires Conserves(child, s) && Emitted(t) == Emitted(s) && t.out == s.out && t.err == s.err
    ensures Conserves(child, t)
  {
  }

  lemma ProjectPrefix(a: seq<Event>, b: seq<Event>, ofOut: bool)
    ensures Project(a, ofOut) <= Project(a + b, ofOut)
    decreases |b|
  {
    if b == [] {
      assert a + b == a;
    } else {
      ProjectPrefix(a, b[..|b| - 1], ofOut);
      assert a + b == (a + b[..|b| - 1]) + [b[|b| - 1]];
      ProjectSnoc(a + b[..|b| - 1], b[|b| - 1], ofOut);
    }
  }

  lemma DisconnectKeeps(child: Child, s: Request)
    requires Consistent(child, s) && Open(s)
    ensures Consistent(child, Apply(child, s, Disconnect).value)
  {
    hide Project, Reads, StatusLast, OutputOnly;
    var sent := if s.consumer.Streaming? then s.consumer.sent else [];
    var rest := if s.consumer.Streaming? then s.consumer.replay + s.queue else Emitted(s);
    if s.consumer.Streaming? {
      Associative(sent, s.consumer.replay, s.queue);
    }
    assert Emitted(s) == sent + rest;
    ProjectPrefix(sent, rest, true);
    ProjectPrefix(sent, rest, false);
    ProjectNone();
  }

  lemma ProjectNone()
    ensures Project([], true) == [] == Project([], false)
  {
  }

  lemma ApplyKeeps(child: Child, s: Request, move: Move)
    requires Consistent(child, s) && Apply(child, s, move).Some?
    ensures Consistent(child, Apply(child, s, move).value)
  {
    match move
    case PumpOut => PumpOutKeeps(child, s);
    case PumpErr => PumpErrKeeps(child, s);
    case Report => ReportKeeps(child, s);
    case Receive => ReceiveKeeps(child, s);
    case Disconnect => DisconnectKeeps(child, s);
    case Deadline =>
      var t := Apply(child, s, move).value;
      assert [] + s.consumer.consumed == s.consumer.consumed;
      assert Emitted(t) == Emitted(s);
    case Exit =>
      assert Emitted(Apply(child, s, move).value) == Emitted(s);
    case Join =>
      assert Emitted(Apply(child, s, move).value) == Emitted(s);
  }

  /** Whatever the schedule, the channel keeps its bound, every stream's chunks are
      delivered, queued, held or unread in order, and the status is one and last. */
  lemma {:induction false} EverySchedule(child: Child, waits: bool, moves: seq<Move>)
    ensures var s := Execute(child, Start(child, waits), moves);
            s.Some? ==> Consistent(child, s.value)
    decreases |moves|
  {
    hide Consistent, Apply, Start;
    if moves == [] {
      StartConsistent(child, waits);
    } else {
      var front := moves[..|moves| - 1];
      EverySchedule(child, waits, front);
      var before := Execute(child, Start(child, waits), front);
      if before.Some? && Apply(child, before.value, moves[|moves| - 1]).Some? {
        ApplyKeeps(child, before.value, moves[|moves| - 1]);
      }
    }
  }

  /** The events of a request that ended well: each stream's reads in order, then
      the status. */
  ghost predicate FullRun(child: Child, events: seq<Event>) {
    && Project(events, true) == Reads(child.out) && Project(events, false) == Reads(child.err)
    && exists output :: OutputOnly(output) && events == output + [Terminal(child.status)]
  }

  /** A direct answer and a stream that closes have both seen the whole run, so
      nothing is lost at the handoff. */
  lemma EndsFull(child: Child, waits: bool, moves: seq<Move>)
    ensures var s := Execute(child, Start(child, waits), moves);
            && (s.Some? && s.value.consumer.Answered? ==> FullRun(child, s.value.consumer.consumed))
            && (s.Some? && s.value.consumer.Closed? ==> FullRun(child, s.value.consumer.sent))
  {
    hide Execute, Project, Reads;
    EverySchedule(child, waits, moves);
    var s := Execute(child, Start(child, waits), moves);
    if s.Some? && (s.value.consumer.Answered? || s.value.consumer.Closed?) {
      var events := if s.value.consumer.Answered? then s.value.consumer.consumed else s.value.consumer.sent;
      assert Emitted(s.value) == events;
      assert Project(events, true) + [] == Project(events, true);
      assert Project(events, false) + [] == Project(events, false);
    }
  }

  /** A collector that is still waiting has the status ahead of it in the channel. */
  lemma StatusAhead(child: Child, s: Request)
    requires Consistent(child, s) && s.consumer.Collecting? && s.waiter.Finished?
    ensures s.queue != []
  {
    hide Project, Reads, Conserves;
    var output :| OutputOnly(output) && Emitted(s) == output + [Terminal(child.status)];
    assert (s.consumer.consumed + s.queue)[|output|] == Terminal(child.status);
  }

  /** While the client is there some move other than a deadline or a disconnect is
      possible, and the channel never ends before the collector sees the status. */
  lemma NeverStuck(child: Child, s: Request)
    requires Consistent(child, s) && Open(s)
    ensures exists move :: move != Deadline && move != Disconnect && Apply(child, s, move).Some?
    ensures s.consumer.Collecting? ==> !(s.queue == [] && SendersGone(s))
  {
    hide Project, Reads, StatusLast, Conserves;
    if s.consumer.Collecting? && s.waiter.Finished? {
      StatusAhead(child, s);
    }
    if Received(s).Some? {
      assert Apply(child, s, Receive).Some?;
    } else if !s.out.Stopped? {
      assert Apply(child, s, PumpOut).Some?;
    } else if !s.err.Stopped? {
      assert Apply(child, s, PumpErr).Some?;
    } else if s.waiter.Waiting? {
      assert Apply(child, s, Exit).Some?;
    } else if s.waiter.Joining? {
      assert Apply(child, s, Join).Some?;
    } else {
      assert Apply(child, s, Report).Some?;
    }
  }

  /** What the reads of a list carry, the interruptions between them left out. */
  function DataOf(pipe: seq<Read>): seq<seq<byte>> {
    if pipe == [] then []
    else
      var last := pipe[|pipe| - 1];
      DataOf(pipe[..|pipe| - 1]) + if last.Data? then [last.bytes] else []
  }

  /** A pipe gives what its reads carry, in order, up to its end: the first empty or
      broken read, or the last of all. */
  lemma {:induction false} ReadsAre(pipe: seq<Read>, rest: seq<Read>)
    requires forall i :: 0 <= i < |pipe| ==> pipe[i] != Data([]) && !pipe[i].Broken?
    requires rest == [] || rest[0] == Data([]) || rest[0].Broken?
    ensures Reads(pipe + rest) == DataOf(pipe)
    decreases |pipe|
  {
    if pipe == [] {
      assert pipe + rest == rest;
    } else {
      ReadsAre(pipe[1..], rest);
      assert (pipe + rest)[1..] == pipe[1..] + rest;
      DataFirst(pipe);
    }
  }

  lemma {:induction false} DataFirst(pipe: seq<Read>)
    requires pipe != []
    ensures DataOf(pipe) == (if pipe[0].Data? then [pipe[0].bytes] else []) + DataOf(pipe[1..])
    decreases |pipe|
  {
    if |pipe| > 1 {
      var front, last := pipe[..|pipe| - 1], pipe[|pipe| - 1];
      DataFirst(front);
      assert pipe[1..][..|pipe| - 2] == front[1..];
      Associative(if pipe[0].Data? then [pipe[0].bytes] else [], DataOf(front[1..]), if last.Data? then [last.bytes] else []);
    } else {
      assert pipe[..0] == [] && DataOf(pipe[..0]) == [];
    }
  }

  /** One pump on its own, while the receiver takes `accepted` events and then goes:
      it sends the chunks its pipe gives, in order, as far as they are taken. */
  method PumpAll(pipe: seq<Read>, toOut: bool, accepted: nat) returns (sent: seq<Event>)
    ensures OutputOnly(sent) && Project(sent, !toOut) == []
    ensures Project(sent, toOut) == if accepted < |Reads(pipe)| then Reads(pipe)[..accepted] else Reads(pipe)
  {
    hide Project;
    ProjectNone();
    sent := [];
    var i := 0;
    assert pipe[0..] == pipe && [] + Reads(pipe) == Reads(pipe);
    while i < |pipe|
      invariant 0 <= i <= |pipe|
      invariant OutputOnly(sent) && Project(sent, !toOut) == [] && |Project(sent, toOut)| == |sent| <= accepted
      invariant Project(sent, toOut) + Reads(pipe[i..]) == Reads(pipe)
    {
      assert pipe[i..][1..] == pipe[i + 1..];
      var read := pipe[i];
      if read.Broken? || read == Data([]) {
        assert Project(sent, toOut) + [] == Project(sent, toOut);
        return;
      }
      if read.Data? {
        if |sent| == accepted {
          return;
        }
        ProjectSnoc(sent, Label(toOut, read.bytes), toOut);
        ProjectSnoc(sent, Label(toOut, read.bytes), !toOut);
        Associative(Project(sent, toOut), [read.bytes], Reads(pipe[i + 1..]));
        sent := sent + [Label(toOut, read.bytes)];
      }
      i := i + 1;
    }
    assert Project(sent, toOut) + [] == Project(sent, toOut);
  }

  function PumpWork(p: Pump): nat {
    match p
    case Reading(left) => 1 + 6 * |left|
    case Holding(_, left) => 6 + 6 * |left|
    case Stopped => 0
  }

  function WaiterWork(w: Waiter): nat {
    match w
    case Waiting => 7
    case Joining => 6
    case Reporting => 5
    case Finished => 0
  }

  function ConsumerWork(c: Consumer): nat {
    match c
    case Collecting(consumed) => 2 + 2 * |consumed|
    case Streaming(_, replay) => 1 + |replay|
    case _ => 0
  }

  /** A bound on the moves still to come. */
  function Work(s: Request): nat {
    PumpWork(s.out) + PumpWork(s.err) + WaiterWork(s.waiter) + 3 * |s.queue| + ConsumerWork(s.consumer)
  }

  lemma MovesWork(child: Child, s: Request, move: Move)
    requires Apply(child, s, move).Some?
    ensures Work(Apply(child, s, move).value) < Work(s)
  {
  }

  /** No schedule is longer than the work there is, so every run ends. */
  lemma {:induction false} SchedulesEnd(child: Child, s: Request, moves: seq<Move>)
    ensures Execute(child, s, moves).Some? ==> |moves| + Work(Execute(child, s, moves).value) <= Work(s)
    decreases |moves|
  {
    hide Apply, Work;
    if moves != [] {
      var front := moves[..|moves| - 1];
      SchedulesEnd(child, s, front);
      var before := Execute(child, s, front);
      if before.Some? && Apply(child, before.value, moves[|moves| - 1]).Some? {
        MovesWork(child, before.value, moves[|moves| - 1]);
      }
    }
  }

  lemma {:induction false} StaysConnected(child: Child, waits: bool, moves: seq<Move>)
    requires Disconnect !in moves
    ensures var s := Execute(child, Start(child, waits), moves);
            s.Some? ==> !s.value.consumer.Dropped?
    decreases |moves|
  {
    hide Pumped;
    if moves != [] {
      StaysConnected(child, waits, moves[..|moves| - 1]);
    }
  }

  /** Every run of a client that stays comes to a good end: schedules are bounded, and
      one that nothing but a disconnect could continue has answered or closed with
      the whole output and the status. */
  lemma RunsEndWell(child: Child, waits: bool, moves: seq<Move>)
    requires Disconnect !in moves && Execute(child, Start(child, waits), moves).Some?
    ensures |moves| <= Work(Start(child, waits))
    ensures var s := Execute(child, Start(child, waits), moves).value;
            (forall move :: move != Disconnect ==> Apply(child, s, move).None?) ==>
              || (s.consumer.Answered? && FullRun(child, s.consumer.consumed))
              || (s.consumer.Closed? && FullRun(child, s.consumer.sent))
  {
    hide Execute, Apply, Consistent, FullRun, Start;
    var s := Execute(child, Start(child, waits), moves).value;
    SchedulesEnd(child, Start(child, waits), moves);
    EverySchedule(child, waits, moves);
    EndsFull(child, waits, moves);
    StaysConnected(child, waits, moves);
    if Open(s) {
      NeverStuck(child, s);
    }
  }

  /** A request that waits is answered directly as long as its deadline has not passed
      and its client stays: it collects, or it has answered, and once nothing else can
      happen it has answered with the whole run. */
  lemma {:induction false} AnsweredInTime(child: Child, moves: seq<Move>)
    requires Deadline !in moves && Disconnect !in moves && Execute(child, Start(child, true), moves).Some?
    ensures var s := Execute(child, Start(child, true), moves).value;
            && (s.consumer.Collecting? || s.consumer.Answered?)
            && ((forall move :: move != Deadline && move != Disconnect ==> Apply(child, s, move).None?) ==>
                  s.consumer.Answered? && FullRun(child, s.consumer.consumed))
    decreases |moves|
  {
    hide Apply, Consistent, FullRun, Start;
    if moves == [] {
      StartCollects(child);
    } else {
      var front, last := moves[..|moves| - 1], moves[|moves| - 1];
      AnsweredInTime(child, front);
      EverySchedule(child, true, front);
      CollectsOn(child, Execute(child, Start(child, true), front).value, last);
    }
    var s := Execute(child, Start(child, true), moves).value;
    EverySchedule(child, true, moves);
    EndsFull(child, true, moves);
    if s.consumer.Collecting? {
      NeverStuck(child, s);
    }
  }

  lemma StartCollects(child: Child)
    ensures Start(child, true).consumer.Collecting?
  {
  }

  lemma CollectsOn(child: Child, s: Request, move: Move)
    requires Consistent(child, s) && (s.consumer.Collecting? || s.consumer.Answered?)
    requires move != Deadline && move != Disconnect && Apply(child, s, move).Some?
    ensures var t := Apply(child, s, move).value; t.consumer.Collecting? || t.consumer.Answered?
  {
    hide Consistent, Pumped;
    if s.consumer.Collecting? {
      NeverStuck(child, s);
    }
  }

  /** A request is answered directly only if it waits and its deadline has not passed
      before; otherwise all it sends is a stream. */
  lemma {:induction false} AnsweredOnlyInTime(child: Child, waits: bool, moves: seq<Move>)
    requires Execute(child, Start(child, waits), moves).Some? && (!waits || Deadline in moves)
    ensures var s := Execute(child, Start(child, waits), moves).value; !s.consumer.Collecting? && !s.consumer.Answered?
    decreases |moves|
  {
    hide Pumped;
    if moves != [] {
      var front, last := moves[..|moves| - 1], moves[|moves| - 1];
      assert moves == front + [last];
      if !waits || Deadline in front {
        AnsweredOnlyInTime(child, waits, front);
      }
    }
  }
}
