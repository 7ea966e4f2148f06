/** The bridge client: one request/response round trip at a time over a transport
    that may deliver bytes in any chunks, sit idle, end or fail.

    `Call` is proved twice over: to follow the client half of BridgeProtocol event by
    event, so everything proved there about runs of that machine holds of this code, and
    to come to exactly what `RoundTrip` computes from what the transport will do. */
module JsonLinesClient {
  import opened Framing
  import opened Json
  import opened BridgeProtocol
  import opened Time

  /** The contract's default timeout for the waiting commands, and the slack on top. */
  const CONTRACT_WAIT_DEFAULT: real := 5.0
  const WAIT_SLACK: real := 5.0

  function WaitBudget(requested: real): real {
    (if requested <= 0.0 then CONTRACT_WAIT_DEFAULT else requested) + WAIT_SLACK
  }

  // ---- the transport ---------------------------------------------------------------------

  datatype ReadEvent = Chunk(data: bytes, took: Delay) | Idle | Eof | Failed
  datatype WriteEvent = Took(n: nat) | Refused

  /** One connected transport.  `incoming` and `outgoing` are what the peer and the network
      will do; once they run out the peer is silent and writes are taken whole. */
  class Transport {
    const clock: Clock
    ghost const script: seq<ReadEvent>          // all of incoming, from the start
    var incoming: seq<ReadEvent>
    var outgoing: seq<WriteEvent>
    var sent: bytes
    var closes: nat
    ghost var received: bytes                   // everything reads have handed out

    constructor (clock: Clock, incoming: seq<ReadEvent>, outgoing: seq<WriteEvent>)
      ensures this.clock == clock && this.incoming == incoming && this.outgoing == outgoing && script == incoming
      ensures sent == [] && closes == 0 && received == []
    {
      this.clock, this.incoming, this.outgoing := clock, incoming, outgoing;
      script := incoming;
      sent, closes, received := [], 0, [];
    }

    /** Time passes while a read sits idle, or until there is data. */
    method Read() returns (event: ReadEvent)
      modifies this`incoming, this`received, clock
      ensures event == NextRead(old(incoming)) && incoming == LaterReads(old(incoming))
      ensures received == old(received) + DataOf(event)
      ensures clock.now == old(clock.now) + TimeOf(event)
    {
      event := NextRead(incoming);
      incoming := LaterReads(incoming);
      if event.Idle? {
        clock.Sleep(IDLE_READ);
      } else if event.Chunk? {
        clock.Sleep(event.took);
        received := received + event.data;
      }
    }

    /** A transport is free to write short. */
    method Write(data: bytes) returns (event: WriteEvent)
      modifies this`outgoing, this`sent
      ensures event == (
          if old(outgoing) == [] then Took(|data|)
          else if old(outgoing)[0].Took? && |data| < old(outgoing)[0].n then Took(|data|)
          else old(outgoing)[0])
      ensures outgoing == if old(outgoing) == [] then [] else old(outgoing)[1..]
      ensures event.Took? ==> event.n <= |data| && sent == old(sent) + data[..event.n]
      ensures event.Refused? ==> sent == old(sent)
    {
      if outgoing == [] {
        event := Took(|data|);
      } else {
        event := if outgoing[0].Took? && |data| < outgoing[0].n then Took(|data|) else outgoing[0];
        outgoing := outgoing[1..];
      }
      if event.Took? {
        sent := sent + data[..event.n];
      }
    }

    method Close()
      modifies this`closes
      ensures closes == old(closes) + 1
    {
      closes := closes + 1;
    }
  }

  function DataOf(event: ReadEvent): bytes {
    if event.Chunk? then event.data else []
  }

  function TimeOf(event: ReadEvent): Delay {
    if event.Idle? then IDLE_READ else if event.Chunk? then event.took else 0.0
  }

  function NextRead(incoming: seq<ReadEvent>): ReadEvent {
    if incoming == [] then Idle else incoming[0]
  }

  function LaterReads(incoming: seq<ReadEvent>): seq<ReadEvent> {
    if incoming == [] then [] else incoming[1..]
  }

  // ---- what a call comes to ----------------------------------------------------------------

  /** What a client has buffered, what its transport will do from now on, and the protocol
      events it has gone through. */
  datatype Wire = Wire(
    buffer: bytes, incoming: seq<ReadEvent>, outgoing: seq<WriteEvent>, now: real, events: seq<ClientEvent>)
  {
    function Did(e: ClientEvent): Wire {
      this.(events := events + [e])
    }

    /** One read on. */
    function AfterRead(): Wire {
      var event := NextRead(incoming);
      Wire(buffer + DataOf(event), LaterReads(incoming), outgoing, now + TimeOf(event),
           events + if DataOf(event) != [] then [Arrived(DataOf(event))] else [])
    }
  }

  /** Whether so many bytes get written, and where that leaves the wire. */
  function Writing(w: Wire, n: nat): (bool, Wire)
    decreases |w.outgoing|
  {
    if n == 0 then (true, w)
    else if w.outgoing == [] then (true, w.Did(Wrote(n)))
    else
      var later := w.(outgoing := w.outgoing[1..]);
      if w.outgoing[0].Refused? then (false, later.Did(Broke))
      else
        var took := if w.outgoing[0].n < n then w.outgoing[0].n else n;
        Writing(if took > 0 then later.Did(Wrote(took)) else later, n - took)
  }

  datatype LineResult = Line | DeadlinePassed | ConnectionEnded

  /** How waiting for a complete frame ends, and where that leaves the wire.  The deadline is
      looked at only after a read that gave nothing. */
  function Waiting(w: Wire, deadline: real): (LineResult, Wire)
    decreases |w.incoming|, PollsLeft(w.now, deadline)
  {
    if FindNewline(w.buffer) >= 0 then (Line, w)
    else
      var event, after := NextRead(w.incoming), w.AfterRead();
      PollPasses(w.now, deadline);
      if event.Eof? || event.Failed? then (ConnectionEnded, after.Did(Broke))
      else if DataOf(event) == [] && !(after.now < deadline) then (DeadlinePassed, after)
      else Waiting(after, deadline)
  }

  function Judging(codec: Codec, id: int, line: bytes): (o: Outcome)
    ensures o.Answered? || o.WrongID? || o.Unreadable?
  {
    match codec.decodeResponse(line)
    case None => Unreadable
    case Some(response) => if response.id != id then WrongID(response.id) else Answered(response.reply)
  }

  /** How a call whose request is written ends, and where that leaves the wire. */
  function Answering(codec: Codec, id: int, w: Wire, deadline: real): (Outcome, Wire) {
    var (result, after) := Waiting(w, deadline);
    match result
    case ConnectionEnded => (Lost, after)
    case DeadlinePassed => (TimedOut, after.Did(GiveUp))
    case Line =>
      var i := FindNewline(after.buffer);
      if i < 0 then (Unreadable, after)
      else (Judging(codec, id, after.buffer[..i]), after.(buffer := after.buffer[i + 1..]).Did(Judge))
  }

  /** One round trip: how the call ends, and where that leaves the wire. */
  function RoundTrip(codec: Codec, request: Request, w: Wire, budget: real): (Outcome, Wire) {
    var (all, written) := Writing(w.Did(Begin(request.cmd, request.params)), |Frame(codec.encodeRequest(request))|);
    if !all then (Lost, written) else Answering(codec, request.id, written, w.now + budget)
  }

  lemma FrameInHand(w: Wire, deadline: real)
    requires FindNewline(w.buffer) >= 0
    ensures Waiting(w, deadline) == (Line, w)
  {
  }

  /** Waiting goes on exactly while there is neither a frame, nor an end, nor a deadline. */
  lemma WaitingStep(w: Wire, deadline: real)
    requires FindNewline(w.buffer) < 0
    ensures var event, after := NextRead(w.incoming), w.AfterRead();
      Waiting(w, deadline) ==
        if event.Eof? || event.Failed? then (ConnectionEnded, after.Did(Broke))
        else if DataOf(event) == [] && !(after.now < deadline) then (DeadlinePassed, after)
        else Waiting(after, deadline)
  {
  }

  /** How long the reads that give data take, all told. */
  function Dripping(incoming: seq<ReadEvent>): (d: real)
    ensures d >= 0.0
  {
    if incoming == [] then 0.0 else (if incoming[0].Chunk? then incoming[0].took else 0.0) + Dripping(incoming[1..])
  }

  function Later(a: real, b: real): real {
    if a < b then b else a
  }

  /** Waiting ends with a frame in hand, at or after the deadline, or over an end or a failure
      of the transport; time does not go back, and the deadline is overrun by at most one
      idle read and the time that data kept coming in. */
  lemma {:induction false} WaitingMeaning(w: Wire, deadline: real)
    ensures var (result, after) := Waiting(w, deadline);
      && (result.Line? <==> FindNewline(after.buffer) >= 0)
      && (result.DeadlinePassed? ==> after.now >= deadline)
      && (result.ConnectionEnded? ==> Eof in w.incoming || Failed in w.incoming)
      && w.now <= after.now && after.outgoing == w.outgoing
      && after.now <= Later(w.now, deadline) + IDLE_READ + Dripping(w.incoming)
    decreases |w.incoming|, PollsLeft(w.now, deadline)
  {
    if FindNewline(w.buffer) < 0 {
      var event, after := NextRead(w.incoming), w.AfterRead();
      PollPasses(w.now, deadline);
      if !event.Eof? && !event.Failed? && !(DataOf(event) == [] && !(after.now < deadline)) {
        WaitingMeaning(after, deadline);
      }
    }
  }

  /** One write on. */
  lemma WritingStep(w: Wire, data: bytes)
    requires data != []
    ensures w.outgoing == [] ==> Writing(w, |data|) == (true, w.Did(Wrote(|data|)))
    ensures w.outgoing != [] ==> (
        var later := w.(outgoing := w.outgoing[1..]);
        match w.outgoing[0] {
          case Refused => Writing(w, |data|) == (false, later.Did(Broke))
          case Took(n) =>
            var took := if n < |data| then n else |data|;
            Writing(w, |data|) == Writing(if took > 0 then later.Did(Wrote(took)) else later, |data[took..]|)
        })
  {
  }

  lemma NothingToWrite(w: Wire)
    ensures Writing(w, 0) == (true, w)
  {
  }

  lemma {:induction false} WritingMeaning(w: Wire, n: nat)
    ensures var (all, after) := Writing(w, n);
      (!all ==> Refused in w.outgoing) && after == w.(outgoing := after.outgoing, events := after.events)
    decreases |w.outgoing|
  {
    if n > 0 && w.outgoing != [] && w.outgoing[0].Took? {
      var later := w.(outgoing := w.outgoing[1..]);
      var took := if w.outgoing[0].n < n then w.outgoing[0].n else n;
      WritingMeaning(if took > 0 then later.Did(Wrote(took)) else later, n - took);
    }
  }

  lemma AnsweringMeaning(codec: Codec, id: int, w: Wire, deadline: real)
    ensures var (outcome, after) := Answering(codec, id, w, deadline);
      && (outcome == Lost ==> Waiting(w, deadline).0.ConnectionEnded?)
      && (outcome == TimedOut ==> after.now >= deadline)
      && w.now <= after.now <= Later(w.now, deadline) + IDLE_READ + Dripping(w.incoming)
  {
    WaitingMeaning(w, deadline);
    hide Waiting, Dripping, FindNewline;
  }

  /** A call is lost only over something its transport did, times out only when its budget is
      used up, and overruns it by at most an idle read and the time that data kept coming. */
  lemma RoundTripMeaning(codec: Codec, request: Request, w: Wire, budget: real)
    ensures var (outcome, after) := RoundTrip(codec, request, w, budget);
      && (outcome == Lost ==> Refused in w.outgoing || Eof in w.incoming || Failed in w.incoming)
      && (outcome == TimedOut ==> after.now >= w.now + budget)
      && w.now <= after.now <= Later(w.now, w.now + budget) + IDLE_READ + Dripping(w.incoming)
  {
    hide Writing, Waiting, Answering, Dripping;
    var n, begun := |Frame(codec.encodeRequest(request))|, w.Did(Begin(request.cmd, request.params));
    WritingMeaning(begun, n);
    var (all, written) := Writing(begun, n);
    if all {
      WaitingMeaning(written, w.now + budget);
      AnsweringMeaning(codec, request.id, written, w.now + budget);
    }
  }

  /** Nothing but the time that data keeps coming in bounds the overrun: a peer that sends a
      byte at a time and no newline holds a call for as long as it likes. */
  lemma {:induction false} DripsPostpone(w: Wire, deadline: real, n: nat)
    requires FindNewline(w.buffer) < 0 && w.incoming == seq(n, _ => Chunk([0], IDLE_READ))
    ensures Waiting(w, deadline).1.now >= w.now + n as real * IDLE_READ
    decreases n
  {
    if n == 0 {
      WaitingMeaning(w, deadline);
    } else {
      WaitingStep(w, deadline);
      var after := w.AfterRead();
      assert NextRead(w.incoming) == Chunk([0], IDLE_READ);
      assert after.incoming == seq(n - 1, _ => Chunk([0], IDLE_READ));
      assert after.buffer[|w.buffer|] == 0;
      DripsPostpone(after, deadline, n - 1);
      hide Waiting;
      assert (n - 1) as real * IDLE_READ + IDLE_READ == n as real * IDLE_READ;
    }
  }

  /** The peer is connected and says nothing. */
  predicate Silent(w: Wire) {
    FindNewline(w.buffer) < 0 && w.incoming == [] && w.outgoing == []
  }

  lemma {:induction false} SilenceRunsOut(w: Wire, deadline: real)
    requires Silent(w)
    ensures Waiting(w, deadline).0 == DeadlinePassed && Waiting(w, deadline).1 == w.(now := Waiting(w, deadline).1.now)
    decreases PollsLeft(w.now, deadline)
  {
    PollPasses(w.now, deadline);
    assert w.buffer + [] == w.buffer && w.events + [] == w.events;
    var later := w.(now := w.now + IDLE_READ);
    assert w.AfterRead() == later;
    if later.now < deadline {
      SilenceRunsOut(later, deadline);
    }
  }

  /** A call to a peer that says nothing times out, and leaves it as silent as before. */
  lemma SilenceTimesOut(codec: Codec, request: Request, w: Wire, budget: real)
    requires Silent(w)
    ensures RoundTrip(codec, request, w, budget).0 == TimedOut && Silent(RoundTrip(codec, request, w, budget).1)
  {
    hide Waiting, FindNewline;
    var written := Writing(w.Did(Begin(request.cmd, request.params)), |Frame(codec.encodeRequest(request))|).1;
    assert Silent(written) && written.now == w.now;
    SilenceRunsOut(written, w.now + budget);
  }

  // ---- the machine alongside -----------------------------------------------------------------

  /** The client state a sequence of protocol events leads to, and the outcomes on the
      way; None when some event was not possible. */
  ghost function After(codec: Codec, c: Client, events: seq<ClientEvent>): Option<(Client, seq<Outcome>)> {
    if events == [] then Some((c, []))
    else Onward(codec, After(codec, c, events[..|events| - 1]), events[|events| - 1])
  }

  ghost function Onward(codec: Codec, here: Option<(Client, seq<Outcome>)>, e: ClientEvent): Option<(Client, seq<Outcome>)> {
    match here
    case None => None
    case Some((m, outcomes)) =>
      if !ClientCan(m, e) then None
      else
        var (m', o) := ClientStep(codec, m, e);
        Some((m', if o.Some? then outcomes + [o.value] else outcomes))
  }

  /** The client half of the protocol machine, run alongside the code: it moves only by
      the machine's own steps, and records them. */
  class Machine {
    ghost const codec: Codec
    ghost var client: Client
    ghost var events: seq<ClientEvent>
    ghost var outcomes: seq<Outcome>
    ghost var requests: seq<Request>   // the requests put on the wire
    ghost var written: bytes           // what the Wrote events handed to the transport
    ghost var arrived: bytes           // what the Arrived events brought in

    ghost predicate Legal()
      reads this
    {
      After(codec, NEW_CLIENT, events) == Some((client, outcomes))
    }

    ghost constructor (codec: Codec)
      ensures Legal() && this.codec == codec && client == NEW_CLIENT
      ensures events == [] && outcomes == [] && requests == [] && written == [] && arrived == []
    {
      this.codec := codec;
      client, events, outcomes, requests, written, arrived := NEW_CLIENT, [], [], [], [], [];
    }

    ghost method Do(e: ClientEvent)
      requires Legal() && ClientCan(client, e)
      modifies this
      ensures Legal() && events == old(events) + [e]
      ensures client == ClientStep(codec, old(client), e).0
      ensures var o := ClientStep(codec, old(client), e).1;
              outcomes == if o.Some? then old(outcomes) + [o.value] else old(outcomes)
      ensures requests == old(requests) + PutOn(codec, old(client), e)
      ensures written == old(written) + if e.Wrote? then old(client).call.unsent[..e.n] else []
      ensures arrived == old(arrived) + if e.Arrived? then e.chunk else []
    {
      var (c, o) := ClientStep(codec, client, e);
      assert (events + [e])[..|events|] == events;
      written := written + if e.Wrote? then client.call.unsent[..e.n] else [];
      arrived := arrived + if e.Arrived? then e.chunk else [];
      requests := requests + PutOn(codec, client, e);
      client, events := c, events + [e];
      outcomes := if o.Some? then outcomes + [o.value] else outcomes;
    }
  }

  ghost function PutOn(codec: Codec, c: Client, e: ClientEvent): seq<Request> {
    if e.Begin? && codec.canRequest(Request(c.nextID, e.cmd, e.params)) then [Request(c.nextID, e.cmd, e.params)] else []
  }

  // ---- the client -----------------------------------------------------------------------------

  /** What a call returns: its outcome, or why nothing was sent. */
  datatype CallResult = AlreadyLost | NotEncoded | Ended(outcome: Outcome)

  /** The one class of error the connection controller reads as a loss. */
  predicate IsConnectionLost(r: CallResult) {
    r == AlreadyLost || r == Ended(Lost)
  }

  /** An answer that breaks the protocol: the client drops the connection over it, yet it is
      not the error the loss rule looks for. */
  predicate BreaksProtocol(r: CallResult) {
    r.Ended? && (r.outcome.WrongID? || r.outcome.Unreadable?)
  }

  /** The machine judges a frame as the code does. */
  lemma JudgeStep(codec: Codec, c: Client, line: bytes, left: bytes)
    requires ClientCan(c, Judge)
    requires line == c.buffer[..FindNewline(c.buffer)] && left == c.buffer[FindNewline(c.buffer) + 1..]
    ensures var outcome := Judging(codec, c.call.id, line);
      ClientStep(codec, c, Judge) == (c.(buffer := left, call := NoCall, lost := !outcome.Answered?), Some(outcome))
  {
    hide FindNewline;
    var popped := c.(buffer := left, call := NoCall);
    match codec.decodeResponse(line)
    case None =>
      assert ClientStep(codec, c, Judge) == (popped.(lost := true), Some(Unreadable));
    case Some(response) =>
      if response.id != c.call.id {
        assert ClientStep(codec, c, Judge) == (popped.(lost := true), Some(WrongID(response.id)));
      } else {
        assert ClientStep(codec, c, Judge) == (popped, Some(Answered(response.reply)));
      }
  }

  class JSONLinesClient {
    const codec: Codec
    const transport: Transport
    const lines: LineReader
    var nextID: int
    var lost: bool
    ghost const machine: Machine

    /** The code is where the machine is; the transport has been closed exactly when the
        connection is lost, and then once. */
    ghost predicate Valid(call: Call)
      reads this, lines, transport, machine
    {
      && machine.codec == codec && machine.Legal() && lines.Valid()
      && machine.client == Client(nextID, lost, lines.buffer, call)
      && transport.received == machine.arrived && transport.sent == machine.written
      && transport.closes == if lost then 1 else 0
    }

    ghost function Now(): Wire
      reads this, lines, transport, transport.clock, machine
    {
      Wire(lines.buffer, transport.incoming, transport.outgoing, transport.clock.now, machine.events)
    }

    /** The objects a client keeps to itself. */
    ghost function Own(): set<object> {
      {this, lines, machine, transport}
    }

    constructor (codec: Codec, transport: Transport)
      requires transport.closes == 0 && transport.received == [] && transport.sent == []
      ensures Valid(NoCall) && machine.client == NEW_CLIENT && nextID == 1 && !lost
      ensures machine.events == [] && machine.outcomes == [] && machine.requests == []
      ensures this.codec == codec && this.transport == transport && fresh(lines) && fresh(machine)
      ensures lines.buffer == []
    {
      this.codec, this.transport := codec, transport;
      nextID, lost := 1, false;
      lines := new LineReader();
      machine := new Machine(codec);
    }

    /** The connection is finished. */
    method MarkLost(ghost call: Call)
      requires Valid(call) && ClientCan(machine.client, Broke)
      modifies this`lost, transport`closes, machine
      ensures Valid(NoCall) && lost
      ensures machine.outcomes == old(machine.outcomes) + [Lost] && machine.requests == old(machine.requests)
      ensures machine.events == old(machine.events) + [Broke]
    {
      hide After, Machine.Legal, LineReader.Valid;
      lost := true;
      transport.Close();
      machine.Do(Broke);
    }

    /** Idempotent: a connection already gone is not closed again. */
    method Close()
      requires Valid(NoCall)
      modifies this`lost, transport`closes, machine
      ensures Valid(NoCall) && lost && transport.closes == 1
      ensures machine.outcomes == old(machine.outcomes) && machine.requests == old(machine.requests)
    {
      hide After, Machine.Legal, LineReader.Valid;
      if lost {
        return;
      }
      lost := true;
      transport.Close();
      machine.Do(Closed);
    }

    /** Writes every byte, however short the transport writes. */
    method WriteAll(data: bytes)
      returns (ok: bool)
      requires data != [] && Valid(Sending(nextID - 1, data)) && !lost
      modifies this`lost, transport`outgoing, transport`sent, transport`closes, machine
      ensures (ok, Now()) == Writing(old(Now()), |data|)
      ensures ok == !lost && machine.requests == old(machine.requests)
      ensures ok ==> Valid(Awaiting(nextID - 1)) && machine.outcomes == old(machine.outcomes)
      ensures ok ==> transport.sent == old(transport.sent) + data
      ensures !ok ==> Valid(NoCall) && machine.outcomes == old(machine.outcomes) + [Lost]
      ensures !ok ==> old(transport.sent) <= transport.sent < old(transport.sent) + data
    {
      hide After, Machine.Legal, LineReader.Valid, Writing;
      var left := data;
      while left != []
        invariant Valid(if left == [] then Awaiting(nextID - 1) else Sending(nextID - 1, left)) && !lost
        invariant machine.requests == old(machine.requests) && machine.outcomes == old(machine.outcomes)
        invariant old(transport.sent) <= transport.sent && transport.sent + left == old(transport.sent) + data
        invariant Writing(Now(), |left|) == Writing(old(Now()), |data|)
        decreases |transport.outgoing|, |left|
      {
        ghost var sent := transport.sent;
        WritingStep(Now(), left);
        var event := transport.Write(left);
        if event.Refused? {
          MarkLost(Sending(nextID - 1, left));
          return false;
        }
        if event.n > 0 {
          machine.Do(Wrote(event.n));
        }
        assert left == left[..event.n] + left[event.n..];
        Associates(sent, left[..event.n], left[event.n..]);
        left := left[event.n..];
        NothingToWrite(Now());
      }
      NothingToWrite(Now());
      ok := true;
    }

    /** One read of the transport, with what the client does about it. */
    method Receive() returns (event: ReadEvent)
      requires Valid(Awaiting(nextID - 1)) && !lost && FindNewline(lines.buffer) < 0
      modifies this`lost, lines, transport`incoming, transport`received, transport`closes, transport.clock, machine
      ensures event == NextRead(old(transport.incoming))
      ensures lost <==> event.Eof? || event.Failed?
      ensures Now() == if lost then old(Now()).AfterRead().Did(Broke) else old(Now()).AfterRead()
      ensures Valid(if lost then NoCall else Awaiting(nextID - 1))
      ensures transport.received == old(transport.received) + DataOf(event)
      ensures lines.buffer == old(lines.buffer) + DataOf(event)
      ensures machine.outcomes == old(machine.outcomes) + if lost then [Lost] else []
      ensures machine.requests == old(machine.requests)
    {
      hide After, Machine.Legal, LineReader.Valid;
      event := transport.Read();
      if event.Chunk? && event.data != [] {
        lines.Feed(event.data);
        machine.Do(Arrived(event.data));
      } else if event.Eof? || event.Failed? {
        MarkLost(Awaiting(nextID - 1));
      }
    }

    /** Waits for a complete frame.  What is buffered is drained before the transport is
        touched, so a frame that has already arrived is never lost to a timeout.
        Terminates because reads run out and then every read sits idle until the deadline. */
    method AwaitLine(deadline: real) returns (r: LineResult, ghost news: bytes)
      requires Valid(Awaiting(nextID - 1)) && !lost
      modifies this`lost, lines, transport`incoming, transport`received, transport`closes, transport.clock, machine
      ensures (r, Now()) == Waiting(old(Now()), deadline)
      ensures lost <==> r.ConnectionEnded?
      ensures Valid(if lost then NoCall else Awaiting(nextID - 1))
      ensures machine.outcomes == old(machine.outcomes) + if lost then [Lost] else []
      ensures machine.requests == old(machine.requests)
      // `news` is what arrived meanwhile; nothing of it or of the old buffer is dropped
      ensures transport.received == old(transport.received) + news && lines.buffer == old(lines.buffer) + news
    {
      hide After, Machine.Legal, LineReader.Valid, PollsLeft, Waiting;
      news := [];
      while FindNewline(lines.buffer) < 0
        invariant Valid(Awaiting(nextID - 1)) && !lost
        invariant Waiting(Now(), deadline) == Waiting(old(Now()), deadline)
        invariant machine.outcomes == old(machine.outcomes) && machine.requests == old(machine.requests)
        invariant transport.received == old(transport.received) + news && lines.buffer == old(lines.buffer) + news
        decreases |transport.incoming|, PollsLeft(transport.clock.now, deadline)
      {
        PollPasses(transport.clock.now, deadline);
        WaitingStep(Now(), deadline);
        var event := Receive();
        Associates(old(transport.received), news, DataOf(event));
        Associates(old(lines.buffer), news, DataOf(event));
        news := news + DataOf(event);
        if event.Chunk? && event.data != [] {
          continue;
        }
        if event.Eof? || event.Failed? {
          return ConnectionEnded, news;
        }
        if !(transport.clock.now < deadline) {
          return DeadlinePassed, news;
        }
      }
      FrameInHand(Now(), deadline);
      r := Line;
    }

    /** Pops the frame that is there, decodes it and matches it against the request in
        progress; a line that does not decode, or carries another id, is fatal. */
    method JudgeLine(id: int) returns (outcome: Outcome)
      requires Valid(Awaiting(id)) && !lost && FindNewline(lines.buffer) >= 0
      modifies this`lost, lines, transport`closes, machine
      ensures Valid(NoCall) && machine.events == old(machine.events) + [Judge]
      ensures outcome == Judging(codec, id, old(lines.buffer)[..FindNewline(old(lines.buffer))])
      ensures lines.buffer == old(lines.buffer)[FindNewline(old(lines.buffer)) + 1..]
      ensures machine.outcomes == old(machine.outcomes) + [outcome] && machine.requests == old(machine.requests)
      ensures lost <==> !outcome.Answered?
    {
      hide After, Machine.Legal, LineReader.Valid, ClientStep, FindNewline;
      ghost var c := machine.client;
      var line := lines.Next();
      var response := codec.decodeResponse(line.value);
      if response.None? {
        outcome := Unreadable;
      } else if response.value.id != id {
        outcome := WrongID(response.value.id);
      } else {
        outcome := Answered(response.value.reply);
      }
      if !outcome.Answered? {
        lost := true;
        transport.Close();
      }
      JudgeStep(codec, c, line.value, lines.buffer);
      machine.Do(Judge);
    }

    /** The answer to the request just written, or why there is none. */
    method ReadResponse(id: int, deadline: real) returns (outcome: Outcome)
      requires id == nextID - 1 && Valid(Awaiting(id)) && !lost
      modifies this`lost, lines, transport`incoming, transport`received, transport`closes, transport.clock, machine
      ensures Valid(NoCall) && (outcome, Now()) == Answering(codec, id, old(Now()), deadline)
      ensures machine.outcomes == old(machine.outcomes) + [outcome] && machine.requests == old(machine.requests)
      ensures lost <==> !outcome.Answered? && !outcome.TimedOut?
    {
      hide After, Machine.Legal, LineReader.Valid, Waiting;
      WaitingMeaning(Now(), deadline);
      var line, _ := AwaitLine(deadline);
      match line
      case ConnectionEnded =>
        outcome := Lost;
      case DeadlinePassed =>
        machine.Do(GiveUp);
        outcome := TimedOut;
      case Line =>
        outcome := JudgeLine(id);
    }

    /** One round trip.  Nothing happens on a lost client, and a request that cannot be
        encoded only takes an id; otherwise the call comes to what `RoundTrip` says. */
    method Call(cmd: string, params: Option<Json>, budget: real) returns (r: CallResult)
      requires Valid(NoCall)
      modifies this`lost, this`nextID, lines, machine, transport.clock
      modifies transport`incoming, transport`received, transport`outgoing, transport`sent, transport`closes
      ensures Valid(NoCall)
      ensures old(lost) ==>
                r == AlreadyLost && unchanged(this) && unchanged(transport) && unchanged(machine) && Now() == old(Now())
      ensures !old(lost) ==> (
          var request := Request(old(nextID), cmd, params);
          && nextID == old(nextID) + 1
          && (!codec.canRequest(request) ==>
                r == NotEncoded && !lost && Now() == old(Now()).Did(Begin(cmd, params))
                && machine.requests == old(machine.requests) && machine.outcomes == old(machine.outcomes))
          && (codec.canRequest(request) ==>
                r.Ended? && (r.outcome, Now()) == RoundTrip(codec, request, old(Now()), budget)
                && machine.requests == old(machine.requests) + [request]
                && machine.outcomes == old(machine.outcomes) + [r.outcome]))
      ensures r.Ended? && r.outcome != Lost ==>
        transport.sent == old(transport.sent) + Frame(codec.encodeRequest(Request(old(nextID), cmd, params)))
      ensures !old(lost) ==> (lost <==> r.Ended? && !r.outcome.Answered? && !r.outcome.TimedOut?)
      ensures old(transport.clock.now) <= transport.clock.now
    {
      hide After, Machine.Legal, LineReader.Valid, Answering, Writing;
      if lost {
        return AlreadyLost;
      }
      var request := Request(nextID, cmd, params);
      nextID := nextID + 1;
      machine.Do(Begin(cmd, params));
      if !codec.canRequest(request) {
        return NotEncoded;
      }
      var data := Frame(codec.encodeRequest(request));
      var deadline := transport.clock.now + budget;
      RoundTripMeaning(codec, request, old(Now()), budget);
      var ok := WriteAll(data);
      if !ok {
        return Ended(Lost);
      }
      var outcome := ReadResponse(request.id, deadline);
      r := Ended(outcome);
    }

    /** A real round trip, unless the connection is already known to be gone. */
    method Ping(budget: real) returns (r: CallResult)
      requires Valid(NoCall)
      modifies this`lost, this`nextID, lines, machine, transport.clock
      modifies transport`incoming, transport`received, transport`outgoing, transport`sent, transport`closes
      ensures Valid(NoCall) && Pinged(old(lost), old(machine.requests), old(machine.outcomes), old(nextID), r)
      ensures old(lost) ==> Now() == old(Now())
      ensures !old(lost) && r.Ended? ==>
                (r.outcome, Now()) == RoundTrip(codec, Request(old(nextID), "ping", None), old(Now()), budget)
      ensures !old(lost) ==> (r == NotEncoded <==> !codec.canRequest(Request(old(nextID), "ping", None)))
      ensures r == NotEncoded ==> Now() == old(Now()).Did(Begin("ping", None))
      ensures lost <==> IsConnectionLost(r) || BreaksProtocol(r)
      ensures old(transport.clock.now) <= transport.clock.now
    {
      hide After, Machine.Legal, LineReader.Valid, RoundTrip;
      r := Call("ping", None, budget);
    }

    /** A ping was put on the wire and this is how it ended. */
    ghost predicate Pinged(wasLost: bool, requests: seq<Request>, outcomes: seq<Outcome>, id: int, r: CallResult)
      reads this, machine
    {
      if wasLost then r == AlreadyLost && lost && machine.requests == requests && machine.outcomes == outcomes
      else if r == NotEncoded then machine.requests == requests && machine.outcomes == outcomes
      else r.Ended? && machine.requests == requests + [Request(id, "ping", None)] && machine.outcomes == outcomes + [r.outcome]
    }

    /** Asks the bridge to end the session.  A connection that is already gone has done so. */
    method Bye(budget: real) returns (failed: Option<CallResult>)
      requires Valid(NoCall)
      modifies this`lost, this`nextID, lines, machine, transport.clock
      modifies transport`incoming, transport`received, transport`outgoing, transport`sent, transport`closes
      ensures Valid(NoCall)
      ensures old(lost) ==> failed.None? && lost && unchanged(machine)
      ensures !old(lost) ==> (
          var request := Request(old(nextID), "bye", None);
          if !codec.canRequest(request) then failed == Some(NotEncoded) && machine.requests == old(machine.requests)
          else
            var (o, after) := RoundTrip(codec, request, old(Now()), budget);
            && machine.requests == old(machine.requests) + [request] && Now() == after
            && failed == if o == Lost || (o.Answered? && o.reply.Result?) then None else Some(Ended(o)))
    {
      hide After, Machine.Legal, LineReader.Valid, RoundTrip;
      var r := Call("bye", None, budget);
      if IsConnectionLost(r) {
        return None;
      }
      failed := if r.Ended? && r.outcome.Answered? && r.outcome.reply.Result? then None else Some(r);
    }
  }

  // ---- the code inside the whole system ------------------------------------------------

  /** The client's own events of a run. */
  function ClientEvents(events: seq<Event>): seq<ClientEvent> {
    if events == [] then []
    else
      ClientEvents(events[..|events| - 1]) +
      if events[|events| - 1].Of? then [events[|events| - 1].event] else []
  }

  lemma OneMoreEvent(codec: Codec, before: seq<ClientEvent>, e: ClientEvent)
    ensures After(codec, NEW_CLIENT, before + [e]) == Onward(codec, After(codec, NEW_CLIENT, before), e)
  {
    assert (before + [e])[..|before|] == before;
  }

  lemma ClientOfStep(codec: Codec, s: System, e: Event)
    requires Can(s, e)
    ensures var s' := Step(codec, s, e);
      if e.Of? then
        ClientCan(s.client, e.event)
        && Onward(codec, Some((s.client, s.outcomes)), e.event) == Some((s'.client, s'.outcomes))
      else s'.client == s.client && s'.outcomes == s.outcomes
  {
    hide ClientStep;
  }

  /** In every run of the whole system the client goes through its own events and no other
      way: what it remembers and what its calls came to depend on nothing else. */
  lemma {:induction false} ClientHalf(codec: Codec, events: seq<Event>, states: seq<System>, n: nat)
    requires Run(codec, events, states) && n <= |events|
    ensures After(codec, NEW_CLIENT, ClientEvents(events[..n])) == Some((states[n].client, states[n].outcomes))
  {
    if n > 0 {
      ClientHalf(codec, events, states, n - 1);
      var before, e, s := ClientEvents(events[..n - 1]), events[n - 1], states[n - 1];
      assert events[..n][..n - 1] == events[..n - 1];
      assert Can(s, e) && states[n] == Step(codec, s, e);
      ClientOfStep(codec, s, e);
      hide After, Onward, Run, Step, Can;
      if e.Of? {
        OneMoreEvent(codec, before, e.event);
      } else {
        assert before + [] == before;
      }
    }
  }

  lemma MachineInRun(m: Machine, events: seq<Event>, states: seq<System>)
    requires m.Legal() && Run(m.codec, events, states) && m.events == ClientEvents(events)
    ensures m.client == states[|events|].client && m.outcomes == states[|events|].outcomes
  {
    ClientHalf(m.codec, events, states, |events|);
    assert events[..|events|] == events;
    hide After, Run;
  }

  /** Whatever code drove a client to these events, in any system they are part of: each of
      its answered calls got the reply to its own request. */
  lemma CodeNeverMisattributes(m: Machine, events: seq<Event>, states: seq<System>, call: nat)
    requires m.Legal() && m.codec.Lawful() && Run(m.codec, events, states) && m.events == ClientEvents(events)
    requires call < |m.outcomes| && m.outcomes[call].Answered?
    ensures var end := states[|events|];
      && m.client == end.client && m.outcomes == end.outcomes
      && call < |end.handled| && call < |end.sent|
      && end.handled[call].request == end.sent[call] && end.handled[call].reply == m.outcomes[call].reply
  {
    MachineInRun(m, events, states);
    hide After, Machine.Legal, Codec.Lawful;
    NoMisattribution(m.codec, events, states, |events|, call);
  }

  /** ... and a call of it that came to neither a loss nor a timeout was answered exactly when
      no earlier one is overdue, and otherwise rejected, and the connection closed, over the
      first that is. */
  lemma CodeRejectsOnlyLateReplies(m: Machine, events: seq<Event>, states: seq<System>)
    requires m.Legal() && m.codec.Lawful() && Run(m.codec, events, states) && m.events == ClientEvents(events)
    requires m.outcomes != [] && m.outcomes[|m.outcomes| - 1] !in {Lost, TimedOut}
    ensures m.outcomes == states[|events|].outcomes && Decided(m.codec, states[|events|])
  {
    MachineInRun(m, events, states);
    hide After, Machine.Legal, Codec.Lawful, Run, Decided;
    AnsweredOrRejected(m.codec, events, states, |events|);
  }

  /** The client has been talking to a session whose every reply got out whole, in some run of
      the whole system. */
  ghost predicate LawfulPeer(m: Machine)
    reads m
  {
    m.codec.Lawful() && exists events: seq<Event>, states: seq<System> ::
      Run(m.codec, events, states) && m.events == ClientEvents(events) && WroteAll(m.codec, states[|events|])
  }

  /** With such a peer that is exactly when any earlier call timed out. */
  lemma RejectedAfterTimeout(m: Machine)
    requires m.Legal() && LawfulPeer(m)
    requires m.outcomes != [] && m.outcomes[|m.outcomes| - 1] !in {Lost, TimedOut}
    ensures var last := |m.outcomes| - 1;
      && (m.outcomes[last].Answered? || m.outcomes[last].WrongID?)
      && (m.outcomes[last].WrongID? <==> TimedOut in m.outcomes[..last])
  {
    hide After, Machine.Legal, Codec.Lawful, WroteAll, Overdue, Rejected;
    var events: seq<Event>, states: seq<System> :|
      Run(m.codec, events, states) && m.events == ClientEvents(events) && WroteAll(m.codec, states[|events|]);
    hide Run;
    MachineInRun(m, events, states);
    AnsweredOrRejected(m.codec, events, states, |events|);
    TimedOutIsOverdue(m.codec, events, states, |events|);
    var last := |m.outcomes| - 1;
    assert m.outcomes == m.outcomes[..last] + [m.outcomes[last]];
  }

  // ---- and it happens to the code ------------------------------------------------------------

  /** What the client does in those ten steps. */
  function LateClientEvents(cut: nat): seq<ClientEvent>
    requires cut <= 2
  {
    [Begin("echo", None), Wrote(2), GiveUp, Begin("echo", None), Wrote(3), Arrived(Stray(cut) + SECOND_FRAME), Judge]
  }

  lemma OneMoreOfAll(events: seq<Event>, n: nat)
    requires n < |events|
    ensures ClientEvents(events[..n + 1]) == ClientEvents(events[..n]) + if events[n].Of? then [events[n].event] else []
  {
    assert events[..n + 1][..n] == events[..n];
  }

  lemma LateClientEventsAre(cut: nat)
    requires cut <= 2
    ensures ClientEvents(LateEvents(cut)) == LateClientEvents(cut)
  {
    var all := LateEvents(cut);
    for n := 0 to 10
      invariant ClientEvents(all[..n]) == LateClientEvents(cut)[..if n <= 5 then n else if n <= 8 then 5 else n - 3]
    {
      OneMoreOfAll(all, n);
    }
    assert all[..10] == all;
  }

  /** The wire that gives the client an idle read, and then whatever got out. */
  function LateWire(cut: nat): Wire
    requires cut <= 2
  {
    Wire([], [Idle, Chunk(Stray(cut) + SECOND_FRAME, 0.0)], [], 0.0, [])
  }

  /** The wire after the first call has timed out. */
  function LaterWire(cut: nat): Wire
    requires cut <= 2
  {
    Wire([], [Chunk(Stray(cut) + SECOND_FRAME, 0.0)], [], IDLE_READ, LateClientEvents(cut)[..3])
  }

  lemma FirstTripTimesOut(codec: Codec, cut: nat)
    requires Spells(codec) && cut <= 2
    ensures RoundTrip(codec, FIRST, LateWire(cut), IDLE_READ) == (TimedOut, LaterWire(cut))
  {
    hide Stray;
    var w := LateWire(cut).Did(Begin("echo", None)).Did(Wrote(2));
    assert w.incoming[1..] == LaterWire(cut).incoming && w.buffer + [] == [] && w.events + [] == w.events;
    assert Writing(LateWire(cut).Did(Begin("echo", None)), 2) == (true, w);
    assert FindNewline([]) == -1;
    WaitingStep(w, 0.0 + IDLE_READ);
    assert w.events + [GiveUp] == LateClientEvents(cut)[..3];
  }

  lemma FrameArrives(w: Wire, chunk: bytes, deadline: real)
    requires w.buffer == [] && w.incoming == [Chunk(chunk, 0.0)] && FindNewline(chunk) >= 0
    ensures Waiting(w, deadline) == (Line, Wire(chunk, [], w.outgoing, w.now, w.events + [Arrived(chunk)]))
  {
    assert w.incoming[1..] == [] && [] + chunk == chunk && FindNewline([]) == -1;
    hide FindNewline;
    WaitingStep(w, deadline);
    FrameInHand(w.AfterRead(), deadline);
    hide Waiting;
  }

  lemma SecondTripEnds(codec: Codec, cut: nat)
    requires Spells(codec) && cut <= 2
    ensures var (outcome, after) := RoundTrip(codec, SECOND, LaterWire(cut), IDLE_READ);
      outcome == LateOutcome(cut) && after.events == LateClientEvents(cut)
  {
    hide Waiting, FindNewline;
    LateLineIsFirst(cut);
    assert codec.decodeResponse(LateLine(cut)) == if cut == 2 then Some(EARLY) else if cut == 1 then None else Some(LATER);
    assert |Frame(codec.encodeRequest(SECOND))| == 3 && codec.canRequest(SECOND);
    hide Stray, LateLine, Spells;
    var chunk := Stray(cut) + SECOND_FRAME;
    var written := LaterWire(cut).Did(Begin("echo", None)).Did(Wrote(3));
    FrameArrives(written, chunk, IDLE_READ + IDLE_READ);
    assert written.events + [Arrived(chunk)] + [Judge] == LateClientEvents(cut);
  }

  lemma LatePeer(m: Machine)
    requires m.codec == LATE_CODEC && m.events == LateClientEvents(2)
    ensures LawfulPeer(m)
  {
    hide Run, Codec.Lawful, WroteAll, LateStates, ListCodec;
    LateReplyHappens(2);
    LateClientEventsAre(2);
    assert |LateEvents(2)| == 10;
  }

  /** Two calls, the first too early for its reply.  If that comes in whole, the second is
      rejected with its id; if only a piece of it got out, as unreadable; both lose the
      client.  If nothing of it did, the second is answered.  With the whole reply the client
      has been talking to a session that writes every one. */
  method LoseToLateReply(cut: nat) returns (first: CallResult, second: CallResult, client: JSONLinesClient)
    requires cut <= 2
    ensures first == Ended(TimedOut) && second == Ended(LateOutcome(cut)) && (client.lost <==> cut > 0)
    ensures cut == 2 ==> LawfulPeer(client.machine)
  {
    hide Waiting, RoundTrip, Machine.Legal, LineReader.Valid, LawfulPeer;
    LateCodecSpells();
    var codec := LATE_CODEC;
    hide ListCodec;
    var clock := new Clock(0.0);
    var transport := new Transport(clock, [Idle, Chunk([2, NEWLINE][..cut] + SECOND_FRAME, 0.0)], []);
    client := new JSONLinesClient(codec, transport);
    FirstTripTimesOut(codec, cut);
    SecondTripEnds(codec, cut);
    first := client.Call("echo", None, IDLE_READ);
    second := client.Call("echo", None, IDLE_READ);
    if cut == 2 {
      LatePeer(client.machine);
    }
  }
}
