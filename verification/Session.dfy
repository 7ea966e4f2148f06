/** The bridge session: one dispatch loop, two watchdogs, guarded teardown.

    What there is to read, what other threads ask for and when the transcript raises is given
    turn by turn; whatever else can raise may or may not.  The loop is proved to go through
    one of the histories of SessionTrace for that world, and every run, those ended by an
    exception included, to come to one complete teardown that lifts the speech filter. */
module Session {
  import opened Framing
  import opened Json
  import opened Time
  import opened Buffers
  import opened JsonText
  import opened SessionTrace

  // ---- the channel -----------------------------------------------------------------------------

  /** One connected transport; once its script runs out the peer is silent. */
  class ByteTransport {
    const clock: Clock
    var incoming: seq<RecvEvent>
    var closes: nat

    constructor (clock: Clock, incoming: seq<RecvEvent>)
      ensures this.clock == clock && this.incoming == incoming && closes == 0
    {
      this.clock, this.incoming, closes := clock, incoming, 0;
    }

    method Recv() returns (event: RecvEvent)
      modifies this`incoming, clock
      ensures old(incoming) == [] ==> event == Idle && incoming == []
      ensures old(incoming) != [] ==> event == old(incoming)[0] && incoming == old(incoming)[1..]
      ensures clock.now == old(clock.now) + if event.Idle? then IDLE_READ else if event.Data? then event.took else 0.0
    {
      event := if incoming == [] then Idle else incoming[0];
      incoming := if incoming == [] then [] else incoming[1..];
      if event.Idle? {
        clock.Sleep(IDLE_READ);
      } else if event.Data? {
        clock.Sleep(event.took);
      }
    }

    method Close()
      modifies this`closes
      ensures closes == old(closes) + 1
    {
      closes := closes + 1;
    }
  }

  class JsonLinesChannel {
    const transport: ByteTransport
    const reader: LineReader
    const decoder: Decoder

    constructor (transport: ByteTransport, decoder: Decoder)
      ensures this.transport == transport && this.decoder == decoder
      ensures fresh(reader) && reader.Valid() && reader.fed == [] && reader.popped == [] && reader.buffer == []
    {
      this.transport, this.decoder := transport, decoder;
      reader := new LineReader();
    }

    /** What is there to read. */
    ghost function Now(): Inbox
      reads reader, transport
    {
      Inbox(reader.buffer, transport.incoming)
    }

    /** The next line, decoded; it answers anything else only when every complete frame that
        arrived has been read. */
    method ReadMessage() returns (r: ReadResult, ghost line: bytes)
      requires reader.Valid()
      modifies reader, transport`incoming, transport.clock
      ensures reader.Valid() && Read(r, Now(), transport.clock.now - old(transport.clock.now)) == NextMessage(decoder, old(Now()))
      ensures r.Line? ==> reader.popped == old(reader.popped) + [line] && r.decoded == Decode(decoder, line)
      ensures !r.Line? ==> reader.popped == old(reader.popped) == Lines(reader.fed)
      ensures |transport.incoming| <= |old(transport.incoming)|
      ensures r.Line? && |transport.incoming| == |old(transport.incoming)| ==> |reader.buffer| < |old(reader.buffer)|
      ensures r.TimedOut? && |transport.incoming| == |old(transport.incoming)| ==>
                reader.buffer == old(reader.buffer) && transport.clock.now == old(transport.clock.now) + IDLE_READ
    {
      hide LineReader.Valid, FindNewline, Lines, Rest, Decode, NextMessage;
      line := [];
      while true
        invariant reader.Valid() && reader.popped == old(reader.popped)
        invariant var rest := NextMessage(decoder, Now());
          rest.(took := transport.clock.now - old(transport.clock.now) + rest.took) == NextMessage(decoder, old(Now()))
        invariant |transport.incoming| <= |old(transport.incoming)|
        invariant |transport.incoming| == |old(transport.incoming)| ==>
                    reader.buffer == old(reader.buffer) && transport.clock.now == old(transport.clock.now)
        decreases |transport.incoming|
      {
        ghost var box := Now();
        var next := reader.Next();
        if next.Some? {
          LineInHand(decoder, box);
          line := next.value;
          return Line(Decode(decoder, next.value)), line;
        }
        OneReadOn(decoder, box);
        var event := transport.Recv();
        match event {
          case Idle => return TimedOut, line;
          case Broke => return Failed, line;
          case Data(chunk, _) =>
            if chunk == [] {
              return EndOfChannel, line;
            }
            reader.Feed(chunk);
        }
      }
    }
  }

  // ---- what hello builds ---------------------------------------------------------------------------

  /** NVDA's speech filter: while some handler is registered, nothing NVDA says is heard. */
  class FilterHooks {
    var handlers: set<SpeechSource>

    constructor ()
      ensures handlers == {}
    {
      handlers := {};
    }
  }

  /** Some call into a port that raised, or did not. */
  method Attempt() returns (raised: bool) {
    raised := *;
  }

  /** Such a call, however long the reader keeps it. */
  method Block(clock: Clock) returns (raised: bool)
    modifies clock
    ensures old(clock.now) <= clock.now
  {
    var busy: real := *;
    clock.Sleep(if busy < 0.0 then 0.0 else busy);
    raised := Attempt();
  }

  class SpeechSource {
    const hooks: FilterHooks
    const silent: bool
    var buffer: SpeechBuffer?
    var registered: bool

    constructor (hooks: FilterHooks, silent: bool)
      ensures this.hooks == hooks && this.silent == silent && buffer == null && !registered
    {
      this.hooks, this.silent, buffer, registered := hooks, silent, null, false;
    }

    /** Only silent mode registers the filter; registering may raise. */
    method Start(buffer: SpeechBuffer) returns (raised: bool)
      modifies this, hooks
      ensures this.buffer == buffer
      ensures registered <==> old(registered) || (silent && !raised)
      ensures hooks.handlers == old(hooks.handlers) + if silent && !raised then {this} else {}
    {
      this.buffer := buffer;
      raised := Attempt();
      if !raised && silent {
        hooks.handlers := hooks.handlers + {this};
        registered := true;
      }
    }

    method Stop()
      modifies this, hooks
      ensures !registered && buffer == null
      ensures hooks.handlers == old(hooks.handlers) - if old(registered) then {this} else {}
    {
      if registered {
        hooks.handlers := hooks.handlers - {this};
        registered := false;
      }
      buffer := null;
    }
  }

  /** What every handler sees; hello fills in the rest.  `requested` is the teardown asked
      for by a command or another thread: the first request wins. */
  class SessionContext {
    const clock: Clock
    const hooks: FilterHooks
    ghost const outside: set<SpeechSource>        // filters other than this session's
    var speech: SpeechBuffer?
    var braille: BrailleBuffer?
    var source: SpeechSource?                     // the adapter set
    var builds: nat                               // calls of the adapter factory
    var requested: Option<Reason>

    constructor (clock: Clock, hooks: FilterHooks)
      ensures Valid() && this.clock == clock && this.hooks == hooks
      ensures speech == null && braille == null && source == null && builds == 0 && requested == None
    {
      this.clock, this.hooks, outside := clock, hooks, hooks.handlers;
      speech, braille, source, builds, requested := null, null, null, 0, None;
    }

    /** The filter holds this session's handler exactly while its source is registered. */
    ghost predicate Valid()
      reads this, hooks, speech, source
    {
      && (speech != null ==> speech.Valid() && speech.clock == clock)
      && (source != null ==> source.hooks == hooks && source !in outside)
      && hooks.handlers == outside + if source != null && source.registered then {source} else {}
    }

    /** What an operational handler relies on. */
    predicate Ready()
      reads this
    {
      speech != null && braille != null && source != null
    }

    method RequestTeardown(reason: Reason)
      modifies this`requested
      ensures requested == if old(requested).Some? then old(requested) else Some(reason)
    {
      if requested.None? {
        requested := Some(reason);
      }
    }
  }

  // ---- handlers -------------------------------------------------------------------------------------

  /** Builds the session.  The adapter set is installed before anything of it starts, and
      nothing at all happens for a hello that is invalid or of another version. */
  method ExecuteHello(ctx: SessionContext, params: map<string, Json>) returns (ok: bool)
    requires ctx.Valid() && ctx.speech == null && ctx.source == null && ctx.builds == 0
    modifies ctx, ctx.hooks, ctx.clock
    ensures ctx.Valid() && ctx.requested == old(ctx.requested) && old(ctx.clock.now) <= ctx.clock.now
    ensures ok ==> ctx.Ready() && ctx.builds == 1 && Acceptable(params)
    ensures ok ==> ctx.source.registered == ctx.source.silent == ParseHello(params).value.silent
    ensures ok ==> ctx.source.buffer == ctx.speech && !ctx.speech.exactFinish && ctx.speech.observing
    ensures ctx.builds <= 1
    ensures ctx.speech != null ==> fresh(ctx.speech)
    ensures ctx.source != null ==> fresh(ctx.source)
    ensures !Acceptable(params) ==> !ok && ctx.builds == 0 && ctx.source == null && ctx.speech == null
  {
    hide SpeechBuffer.Valid;
    var parsed := ParseHello(params);
    if parsed.None? || parsed.value.version != PROTOCOL_VERSION {
      return false;
    }
    var raised := OpenRecords(ctx.clock);
    if raised {
      return false;
    }
    ctx.builds := ctx.builds + 1;
    raised := Block(ctx.clock);
    if raised {
      return false;
    }
    ctx.source := new SpeechSource(ctx.hooks, parsed.value.silent);
    ctx.speech := new SpeechBuffer(ctx.clock, false);
    ctx.braille := new BrailleBuffer(ctx.clock);
    ctx.speech.SetObserver();
    raised := StartSources(ctx);
    ok := !raised;
  }

  /** Opens the transcript, then starts the log capture. */
  method OpenRecords(clock: Clock) returns (raised: bool)
    modifies clock
    ensures old(clock.now) <= clock.now
  {
    raised := Block(clock);
    if !raised {
      raised := Block(clock);
    }
  }

  /** Starts the speech source, then the braille source; then only the report is left. */
  method StartSources(ctx: SessionContext) returns (raised: bool)
    requires ctx.Valid() && ctx.source != null && ctx.speech != null && !ctx.source.registered
    modifies ctx.source, ctx.hooks, ctx.clock
    ensures ctx.Valid() && old(ctx.clock.now) <= ctx.clock.now
    ensures ctx.source.buffer == ctx.speech
    ensures !raised ==> ctx.source.registered == ctx.source.silent
  {
    raised := ctx.source.Start(ctx.speech);
    if !raised {
      raised := Block(ctx.clock);
    }
    if !raised {
      raised := Block(ctx.clock);
    }
    if !raised {
      raised := Block(ctx.clock);
    }
  }

  /** What a handler leaves the context asking for. */
  function AskedBy(handler: Handler, before: Option<Reason>): Option<Reason> {
    Earlier(before, if handler.Bye? then Some(ClientBye) else None)
  }

  /** A handler that runs after hello; it reads the context without checking it. */
  method Execute(handler: Handler, ctx: SessionContext, params: map<string, Json>) returns (ok: bool)
    requires !handler.Hello? && ctx.Valid() && ctx.Ready()
    modifies ctx`requested, ctx.speech, ctx.clock
    ensures ctx.Valid()
    ensures ctx.requested == AskedBy(handler, old(ctx.requested))
    ensures Took(handler, params, old(ctx.clock.now), ctx.clock.now) && Responds(handler, params, ok)
  {
    match handler
    case Bye =>
      ctx.RequestTeardown(ClientBye);
      ok := true;
    case Ping => ok := true;
    case WaitForSpeech =>
      if !IsWaitFor(params) {
        return false;
      }
      var found, index, text;
      ghost var polls;
      found, index, text, polls := ctx.speech.WaitFor(params["text"].s, AfterIndexOf(params).value, TimeoutOf(params).value);
      ok := true;
    case WaitToFinish =>
      if TimeoutOf(params).None? {
        return false;
      }
      var finished;
      ghost var polls;
      finished, polls := ctx.speech.WaitToFinish(TimeoutOf(params).value);
      ok := true;
    case Operational =>
      var raised := Block(ctx.clock);
      ok := !raised;
  }

  /** `execute` of whichever handler a command has. */
  method Handle(handler: Handler, ctx: SessionContext, params: map<string, Json>) returns (ok: bool)
    requires ctx.Valid()
    requires if handler.Hello? then ctx.speech == null && ctx.source == null && ctx.builds == 0 else ctx.Ready()
    modifies ctx, ctx.hooks, ctx.speech, ctx.clock
    ensures ctx.Valid()
    ensures if handler.Hello? then (ok ==> ctx.Ready() && ctx.builds == 1) && ctx.builds <= 1
            else ctx.speech == old(ctx.speech) && ctx.source == old(ctx.source)
                 && ctx.braille == old(ctx.braille) && ctx.builds == old(ctx.builds)
    ensures ctx.speech == old(ctx.speech) || fresh(ctx.speech)
    ensures ctx.source == old(ctx.source) || fresh(ctx.source)
    ensures ctx.requested == AskedBy(handler, old(ctx.requested))
    ensures Took(handler, params, old(ctx.clock.now), ctx.clock.now) && Responds(handler, params, ok)
  {
    hide SpeechBuffer.Valid;
    if handler.Hello? {
      ok := ExecuteHello(ctx, params);
    } else {
      ok := Execute(handler, ctx, params);
    }
  }

  // ---- the session ---------------------------------------------------------------------------------

  datatype Effect =
    | StopLogCapture | StopSpeechSource | StopBrailleSource
    | RecordClosed(reason: Reason) | SignalEnded | CloseChannel

  /** The steps of one complete teardown. */
  function TeardownSteps(built: bool, established: bool, reason: Option<Reason>): seq<Effect> {
    [StopLogCapture]
    + (if built then [StopSpeechSource, StopBrailleSource] else [])
    + [RecordClosed(if reason.Some? then reason.value else External)]
    + (if established then [SignalEnded] else [])
    + [CloseChannel]
  }

  class Session {
    const channel: JsonLinesChannel
    const ctx: SessionContext
    const config: SessionConfig
    const registry: Registry
    const asks: nat -> Interruption               // what other threads ask for, turn by turn
    const noteFails: nat -> bool                  // the turns in which the transcript raises
    var established: bool
    var reason: Option<Reason>
    var tornDown: bool
    var lastMessageTime: real
    var lastCommandTime: real
    var turns: nat
    var written: seq<ReplyAttempt>
    var effects: seq<Effect>                      // teardown steps attempted
    ghost var story: Story                        // what happened since the run began

    constructor (
        channel: JsonLinesChannel, ctx: SessionContext, config: SessionConfig, registry: Registry,
        asks: nat -> Interruption, noteFails: nat -> bool)
      ensures this.channel == channel && this.ctx == ctx && this.config == config && this.registry == registry
      ensures this.asks == asks && this.noteFails == noteFails
      ensures Fresh()
    {
      this.channel, this.ctx, this.config, this.registry := channel, ctx, config, registry;
      this.asks, this.noteFails := asks, noteFails;
      established, reason, tornDown := false, None, false;
      lastMessageTime, lastCommandTime, turns := 0.0, 0.0, 0;
      written, effects := [], [];
      story := Story(World(config, registry, channel.decoder, Inbox([], []), 0.0, None, asks, noteFails), [], [], [], 0.0, []);
    }

    predicate Fresh()
      reads this
    {
      !established && reason.None? && !tornDown && written == [] && effects == []
    }

    /** Everything around the session as it is now. */
    ghost function Outside(): World
      reads ctx, ctx.clock, channel.reader, channel.transport
    {
      World(config, registry, channel.decoder, channel.Now(), ctx.clock.now, ctx.requested, asks, noteFails)
    }

    /** The parts fit together, and established means fully built: before hello the factory
        was not called, and never more than once. */
    ghost predicate Valid()
      reads `established, `reason, ctx, ctx.hooks, ctx.speech, ctx.source, channel.reader
    {
      && channel.transport.clock == ctx.clock
      && channel.reader.Valid() && ctx.Valid()
      && (established ==> ctx.Ready() && ctx.builds == 1)
      && (!established && reason.None? ==> ctx.builds == 0 && ctx.speech == null && ctx.source == null)
      && ctx.builds <= 1
    }

    ghost predicate Ours(world: World) {
      && world.config == config && world.registry == registry && world.decoder == channel.decoder
      && world.asks == asks && world.noteFails == noteFails
    }

    /** The history is what happened: every turn heard what was there to read, at its time,
        and its lines are the ones popped.  What was replied is what it says, and it took the
        time that went by. */
    ghost predicate Recorded()
      reads `established, `written, `story, ctx.clock, channel.reader
    {
      && Ours(story.world) && Happens(story.world, story.lines, story.trace)
      && established == Established(registry, story.trace) && written == Replies(story.trace)
      && channel.reader.popped == story.Popped()
      && ctx.clock.now == EndTime(story.world.start, story.trace) + story.spent
    }

    /** Between turns the watchdogs, what is left to read and what was asked for are what the
        history says as well. */
    ghost predicate OnTime()
      reads this, ctx, channel.reader, channel.transport
    {
      && Remembers(config, registry, story.world.start, story.trace, Mind())
      && channel.Now() == AfterReads(story.world, |story.trace|)
      && ctx.requested == Requested(story.world, story.trace)
      && turns == |story.trace| && story.fatal == [] && story.spent == 0.0
    }

    ghost function Mind(): Memory
      reads this
    {
      Memory(established, lastMessageTime, lastCommandTime, reason)
    }

    /** The history came to an end: by something raised exactly when the world has it so, and
        for a reason it gives otherwise. */
    ghost predicate Concluded(raised: bool)
      reads `established, `written, `story, `reason, ctx.clock, channel.reader
    {
      && Recorded() && story.DiedOf(raised)
      && (raised <==> Raised(story.world, story.trace))
      && (if raised then reason.None? else reason.Some? && Ended(story.world, story.trace, reason.value))
    }

    method AbsorbExternal()
      modifies this`reason
      ensures reason == if old(reason).None? then ctx.requested else old(reason)
    {
      if reason.None? {
        reason := ctx.requested;
      }
    }

    /** What the plugin, the panic gesture or a stopping server asks for at this point. */
    method OtherThreads(point: Interruption)
      requires Valid()
      modifies ctx`requested
      ensures Valid()
      ensures ctx.requested == Earlier(old(ctx.requested), if asks(turns) == point then Some(External) else None)
    {
      if asks(turns) == point {
        ctx.RequestTeardown(External);
      }
    }

    method EndTurn()
      requires Valid()
      modifies ctx`requested, `turns
      ensures Valid() && turns == old(turns) + 1
      ensures ctx.requested ==
                Earlier(old(ctx.requested), if asks(old(turns)).AfterHandling? then Some(External) else None)
    {
      OtherThreads(AfterHandling);
      turns := turns + 1;
    }

    method CheckDeadline()
      modifies this`reason
      ensures old(reason).Some? ==> reason == old(reason)
      ensures old(reason).None? ==>
                reason == DeadlineReason(config, established, lastMessageTime, lastCommandTime, ctx.clock.now)
    {
      if reason.Some? {
        return;
      }
      var now := ctx.clock.now;
      if now - lastMessageTime >= config.heartbeat {
        reason := Some(if established then HeartbeatTimeout else HandshakeFailed);
        return;
      }
      if established && now - lastCommandTime >= config.inactivity {
        reason := Some(InactivityTimeout);
      }
    }

    /** A garbage line ends a handshake; in a session it is noted, which may raise. */
    method OnUnreadable() returns (crashed: bool)
      modifies this`reason, this`lastMessageTime
      ensures established ==> reason == old(reason) && lastMessageTime == ctx.clock.now
      ensures !established ==> reason == Some(HandshakeFailed)
      ensures crashed == (established && noteFails(turns))
    {
      if !established {
        reason := Some(HandshakeFailed);
        return false;
      }
      lastMessageTime := ctx.clock.now;
      crashed := noteFails(turns);
    }

    /** A failed write is left for the next read to notice. */
    method SafeWrite(reply: ReplyAttempt)
      modifies this`written
      ensures written == old(written) + [reply]
    {
      written := written + [reply];
    }

    /** Without an id there is nobody to answer: the transcript notes it, which may raise. */
    method ReplyError(id: Option<int>) returns (crashed: bool)
      modifies this`written
      ensures written == old(written) + if id.Some? then [Attempted(id.value, false)] else []
      ensures crashed == (id.None? && noteFails(turns))
    {
      if id.None? {
        crashed := noteFails(turns);
        return;
      }
      SafeWrite(Attempted(id.value, false));
      crashed := false;
    }

    method ReplyCommandError(id: Option<int>) returns (crashed: bool)
      modifies this`written, this`reason
      ensures written == old(written) + if id.Some? then [Attempted(id.value, false)] else []
      ensures crashed == (id.None? && noteFails(turns))
      ensures reason == if !crashed && !established then Some(HandshakeFailed) else old(reason)
    {
      crashed := ReplyError(id);
      if !crashed && !established {
        reason := Some(HandshakeFailed);
      }
    }

    /** One frame: at most one handler, and one reply attempt if it carries an id. */
    method Dispatch(raw: map<string, Json>) returns (crashed: bool, ok: bool)
      requires Valid() && reason.None?
      modifies this`established, this`reason, this`lastCommandTime, this`written
      modifies ctx, ctx.hooks, ctx.speech, ctx.clock
      ensures Valid()
      ensures ctx.speech == old(ctx.speech) || fresh(ctx.speech)
      ensures ctx.source == old(ctx.source) || fresh(ctx.source)
      ensures crashed == (OnlyNoted(old(established), Frame(raw)) && noteFails(turns))
      ensures crashed ==> reason.None? && established == old(established) && written == old(written)
                          && ctx.clock.now == old(ctx.clock.now) && ctx.requested == old(ctx.requested)
      ensures !crashed ==> Timely(registry, old(established), Turn(Frame(raw), old(ctx.clock.now), ok, ctx.clock.now))
      ensures !crashed ==> established == (old(established) || (Dispatched(registry, false, Frame(raw)).Some? && ok))
      ensures !crashed ==> reason == if established then None else Some(HandshakeFailed)
      ensures !crashed ==> (
          written == old(written) + if ExtractId(raw).Some? then [Attempted(ExtractId(raw).value, ok)] else [])
      ensures !crashed ==> (
          lastCommandTime ==
          match Dispatched(registry, old(established), Frame(raw)) {
            case None => old(lastCommandTime)
            case Some(h) => if ResetsInactivity(h) then old(ctx.clock.now) else old(lastCommandTime)
          })
      ensures !crashed ==> (
          ctx.requested == Earlier(old(ctx.requested),
            if Dispatched(registry, old(established), Frame(raw)) == Some(Bye) then Some(ClientBye) else None))
    {
      hide LineReader.Valid, SpeechBuffer.Valid, SessionContext.Valid, Took, Responds;
      ok := false;
      var parsed := ParseRequest(raw);
      if parsed.None? {
        crashed := ReplyCommandError(ExtractId(raw));
        return;
      }
      var request := parsed.value;
      var preHello := !established;
      if request.cmd !in registry || (preHello && !AvailableBeforeHello(registry[request.cmd])) {
        if preHello {
          crashed := ReplyCommandError(Some(request.id));
        } else {
          crashed := ReplyError(Some(request.id));
        }
        return;
      }
      var handler := registry[request.cmd];
      if !preHello && AvailableBeforeHello(handler) {
        crashed := ReplyError(Some(request.id));
        return;
      }
      if ResetsInactivity(handler) {
        lastCommandTime := ctx.clock.now;
      }
      ok := Handle(handler, ctx, request.params);
      if !ok {
        crashed := ReplyCommandError(Some(request.id));
        return;
      }
      SafeWrite(Attempted(request.id, true));
      if preHello {
        established := true;
        var cueRaised := Attempt();
      }
      crashed := false;
    }

    /** What the loop does with what the read gave. */
    method Heed(heard: Heard) returns (crashed: bool, ok: bool)
      requires Valid() && reason.None?
      modifies this`established, this`reason, this`lastMessageTime, this`lastCommandTime, this`written
      modifies ctx, ctx.hooks, ctx.speech, ctx.clock
      ensures Valid()
      ensures ctx.speech == old(ctx.speech) || fresh(ctx.speech)
      ensures ctx.source == old(ctx.source) || fresh(ctx.source)
      ensures crashed == (OnlyNoted(old(established), heard) && noteFails(turns))
      ensures crashed ==> reason.None? && established == old(established) && written == old(written)
                          && ctx.clock.now == old(ctx.clock.now) && ctx.requested == old(ctx.requested)
      ensures !crashed ==> (
          var t := SessionTrace.Turn(heard, old(ctx.clock.now), ok, ctx.clock.now);
          && Timely(registry, old(established), t)
          && reason == Remembered(config, registry, old(Mind()), t).reason
          && established == Remembered(config, registry, old(Mind()), t).established
          && (reason.None? ==> Mind() == Remembered(config, registry, old(Mind()), t))
          && written == old(written)
             + if heard.Frame? && ExtractId(heard.raw).Some? then [Attempted(ExtractId(heard.raw).value, ok)] else [])
      ensures !crashed ==> (
          ctx.requested == Earlier(old(ctx.requested),
            if Dispatched(registry, old(established), heard) == Some(Bye) then Some(ClientBye) else None))
    {
      hide LineReader.Valid, SessionContext.Valid, SpeechBuffer.Valid, HandlerFor, Took, Responds, DeadlineReason;
      crashed, ok := false, false;
      match heard {
        case Silence =>
        case Garbage =>
          crashed := OnUnreadable();
        case Frame(raw) =>
          lastMessageTime := ctx.clock.now;
          crashed, ok := Dispatch(raw);
      }
      if !crashed {
        CheckDeadline();
      }
    }

    /** Both windows start now, and so does the history. */
    method Begin()
      requires Valid() && Fresh()
      modifies `lastMessageTime, `lastCommandTime, `turns, `story
      ensures Valid() && Recorded() && OnTime()
      ensures story.world == Outside() && story.before == channel.reader.popped
    {
      hide Valid, Happens, Established, Replies, Requested, AfterReads, Remembers, EndTime;
      lastMessageTime, lastCommandTime := ctx.clock.now, ctx.clock.now;
      turns := 0;
      story := Story(Outside(), channel.reader.popped, [], [], 0.0, []);
      NothingYet(story.world);
    }

    /** Between the read of a turn and the rest of it. */
    ghost predicate MidTurn(heard: Heard, line: bytes)
      reads this, ctx, ctx.clock, channel.reader, channel.transport
    {
      && Ours(story.world) && Happens(story.world, story.lines, story.trace)
      && Remembers(config, registry, story.world.start, story.trace, Mind())
      && established == Established(registry, story.trace) && written == Replies(story.trace)
      && HeardAs(NthRead(story.world, |story.trace|)) == Some(heard)
      && channel.Now() == AfterReads(story.world, |story.trace| + 1)
      && (!heard.Silence? ==> HeardAs(Line(Decode(story.world.decoder, line))) == Some(heard))
      && channel.reader.popped == story.Popped() + (if heard.Silence? then [] else [line])
      && ctx.clock.now == EndTime(story.world.start, story.trace) + NthTook(story.world, |story.trace|)
      && Requested(story.world, story.trace).None? && turns == |story.trace| && story.fatal == [] && story.spent == 0.0
      && ctx.requested == if asks(turns).WhileReading? then Some(External) else None
    }

    /** The turn that was just taken goes into the history. */
    ghost method Record(t: Turn, line: bytes, remembered: Memory)
      requires Ours(story.world) && Happens(story.world, story.lines, story.trace)
      requires Remembers(config, registry, story.world.start, story.trace, remembered) && remembered.reason.None?
      requires HeardAs(NthRead(story.world, |story.trace|)) == Some(t.heard)
      requires channel.Now() == AfterReads(story.world, |story.trace| + 1)
      requires !t.heard.Silence? ==> HeardAs(Line(Decode(story.world.decoder, line))) == Some(t.heard)
      requires channel.reader.popped == story.Popped() + (if t.heard.Silence? then [] else [line])
      requires t.at == EndTime(story.world.start, story.trace) + NthTook(story.world, |story.trace|)
      requires Requested(story.world, story.trace).None? && turns == |story.trace| + 1
      requires story.fatal == [] && story.spent == 0.0
      requires Timely(registry, remembered.established, t) && ctx.clock.now == t.checked
      requires ctx.requested ==
                 RequestedBy(None, asks(turns - 1), Dispatched(registry, remembered.established, t.heard) == Some(Bye))
      requires written == Replies(story.trace)
                 + if t.heard.Frame? && ExtractId(t.heard.raw).Some? then [Attempted(ExtractId(t.heard.raw).value, t.ok)] else []
      requires reason == Remembered(config, registry, remembered, t).reason
      requires established == Remembered(config, registry, remembered, t).established
      requires reason.None? ==> Mind() == Remembered(config, registry, remembered, t)
      modifies `story
      ensures Recorded() && story == old(story).Next(t, line)
      ensures reason.None? ==> OnTime()
      ensures reason.Some? ==> Ended(story.world, story.trace, reason.value)
    {
      hide Established, LastHeard, LastReset, Replies, Running, Verdict, Happens, Requested, EndTime, Ended;
      hide Decode, NthRead, NthTook, HeardAs, AfterReads, Timely, Dispatched, Remembered, ExtractId, RequestedBy;
      NextSettled(story.world, story.trace, remembered, t);
      NextReplies(story.trace, t);
      NextHappens(story, t, line);
      story := story.Next(t, line);
    }

    /** The turn raised: its line is no part of the history. */
    ghost method RecordFatal(line: bytes, took: real)
      requires Ours(story.world) && Happens(story.world, story.lines, story.trace)
      requires established == Established(registry, story.trace) && written == Replies(story.trace)
      requires ctx.clock.now == EndTime(story.world.start, story.trace) + took
      requires channel.reader.popped == story.Popped() + [line] && story.fatal == []
      modifies `story
      ensures Recorded() && story == old(story).(fatal := [line], spent := took)
    {
      hide Established, Replies, Happens, EndTime;
      story := story.(fatal := [line], spent := took);
    }

    /** What a turn does with what it heard; true when something raised out of it. */
    method FinishTurn(heard: Heard, ghost line: bytes) returns (crashed: bool)
      requires Valid() && MidTurn(heard, line) && reason.None?
      modifies this`established, this`reason, this`lastMessageTime, this`lastCommandTime, this`written
      modifies this`turns, this`story
      modifies ctx, ctx.hooks, ctx.speech, ctx.clock
      ensures Valid() && Recorded()
      ensures ctx.speech == old(ctx.speech) || fresh(ctx.speech)
      ensures ctx.source == old(ctx.source) || fresh(ctx.source)
      ensures crashed == (OnlyNoted(old(established), heard) && noteFails(old(turns)))
      ensures crashed ==> reason.None? && story == old(story).(fatal := [line], spent := NthTook(story.world, |story.trace|))
      ensures !crashed ==> story.world == old(story.world) && story.before == old(story.before)
      ensures !crashed ==> story.fatal == [] && story.spent == 0.0
      ensures !crashed && reason.None? ==> OnTime()
      ensures !crashed && reason.Some? ==> Ended(story.world, story.trace, reason.value)
      ensures !crashed && heard.Silence? && reason.None? ==> (
          lastMessageTime == old(lastMessageTime) && ctx.clock.now == old(ctx.clock.now)
          && ctx.clock.now < lastMessageTime + config.heartbeat)
    {
      hide Established, LastHeard, LastReset, Replies, Running, Verdict, Happens, Requested, EndTime, Ended, Raised;
      hide LineReader.Valid, SessionContext.Valid, SpeechBuffer.Valid, HandlerFor, Took, Responds;
      hide Decode, NthRead, NthTook, HeardAs;
      hide Valid, Timely, Dispatched, Remembered, ExtractId, Recorded, OnTime, AfterReads, Remembers;
      ghost var at, remembered := ctx.clock.now, Mind();
      var ok;
      crashed, ok := Heed(heard);
      assert channel.Now() == old(channel.Now()) && channel.reader.popped == old(channel.reader.popped);
      if crashed {
        RecordFatal(line, NthTook(story.world, |story.trace|));
        return;
      }
      EndTurn();
      ghost var t := SessionTrace.Turn(heard, at, ok, ctx.clock.now);
      if heard.Silence? && reason.None? {
        SilenceSurvived(config, registry, remembered, t);
      }
      Record(t, line, remembered);
    }

    /** One pass of the loop, begun only while nobody has asked for teardown; true when
        something raised out of it. */
    method TakeTurn() returns (crashed: bool)
      requires Valid() && Recorded() && OnTime() && reason.None? && ctx.requested.None?
      modifies this`established, this`reason, this`lastMessageTime, this`lastCommandTime, this`written
      modifies this`turns, this`story
      modifies ctx, ctx.hooks, ctx.speech, ctx.clock, channel.reader, channel.transport`incoming
      ensures Valid() && Recorded() && story.DiedOf(crashed)
      ensures story.world == old(story.world) && story.before == old(story.before)
      ensures ctx.speech == old(ctx.speech) || fresh(ctx.speech)
      ensures ctx.source == old(ctx.source) || fresh(ctx.source)
      ensures crashed == Escapes(old(established), NthRead(story.world, |old(story.trace)|), noteFails(|old(story.trace)|))
      ensures crashed ==> reason.None? && story.trace == old(story.trace)
      ensures !crashed && reason.None? ==> OnTime()
      ensures !crashed && reason.Some? ==> Ended(story.world, story.trace, reason.value)
      ensures old(established) && !noteFails(|old(story.trace)|) && |channel.reader.popped| > |old(channel.reader.popped)| ==>
                (crashed <==> Fatal(channel.decoder, channel.reader.popped[|old(channel.reader.popped)|]))
      ensures |channel.transport.incoming| <= |old(channel.transport.incoming)|
      ensures !crashed && reason.None? && |channel.transport.incoming| == |old(channel.transport.incoming)| ==>
                |channel.reader.buffer| < |old(channel.reader.buffer)|
                || (channel.reader.buffer == old(channel.reader.buffer) && lastMessageTime == old(lastMessageTime)
                    && ctx.clock.now == old(ctx.clock.now) + IDLE_READ
                    && ctx.clock.now < lastMessageTime + config.heartbeat)
    {
      hide Established, LastHeard, LastReset, Replies, Verdict, Happens, Requested, EndTime, IsUtf8, GivesUp;
      hide LineReader.Valid, SessionContext.Valid, SpeechBuffer.Valid, NextMessage, ParseRequest, ExtractId;
      var result;
      ghost var line;
      result, line := channel.ReadMessage();
      OtherThreads(WhileReading);
      if result.Failed? || (result.Line? && (result.decoded.NotUtf8? || result.decoded.TooDeep?)) {
        story := story.(fatal := if result.Line? then [line] else [], spent := NthTook(story.world, |story.trace|));
        return true;
      }
      if result.EndOfChannel? {
        story := story.(spent := NthTook(story.world, |story.trace|));
        reason := Some(ChannelClosed);
        return false;
      }
      crashed := FinishTurn(HeardAs(result).value, line);
    }

    /** Turns until the session ends; true when something raised out of the loop.  Every turn
        began while nobody had asked for teardown. */
    method Loop() returns (crashed: bool)
      requires Valid() && Recorded() && OnTime() && reason.None? && ctx.speech == null && ctx.source == null
      modifies this`established, this`reason, this`lastMessageTime, this`lastCommandTime, this`written
      modifies this`turns, this`story
      modifies ctx, ctx.hooks, ctx.clock, channel.reader, channel.transport`incoming
      ensures Valid() && Concluded(crashed)
      ensures story.world == old(story.world) && story.before == old(story.before)
      ensures ctx.source == null || fresh(ctx.source)
    {
      hide Established, LastHeard, LastReset, Replies, Verdict, Running, LineReader.Valid, SessionContext.Valid;
      hide Happens, EndTime, Requested, NthRead, NthTook, Escapes;
      while reason.None?
        invariant Valid() && Recorded() && story.DiedOf(false)
        invariant story.world == old(story.world) && story.before == old(story.before)
        invariant ctx.source == null || fresh(ctx.source)
        invariant ctx.speech == null || fresh(ctx.speech)
        invariant reason.None? ==> OnTime()
        invariant reason.Some? ==> Ended(story.world, story.trace, reason.value)
        decreases reason.None?, |channel.transport.incoming|, |channel.reader.buffer|,
          PollsLeft(ctx.clock.now, lastMessageTime + config.heartbeat)
      {
        PollPasses(ctx.clock.now, lastMessageTime + config.heartbeat);
        AbsorbExternal();
        if reason.Some? {
          break;
        }
        crashed := TakeTurn();
        if crashed {
          return;
        }
      }
      crashed := false;
      OneEnd(story.world, story.trace, reason.value, reason.value);
    }

    /** Once, every step guarded by itself: whatever raises, the rest still runs.  The source's
        own stop does not raise. */
    method Teardown()
      requires Valid()
      modifies this`tornDown, this`effects, ctx.source, ctx.hooks, channel.transport`closes
      ensures old(tornDown) ==> effects == old(effects) && ctx.hooks.handlers == old(ctx.hooks.handlers)
      ensures !old(tornDown) ==> (
          && tornDown
          && effects == old(effects) + TeardownSteps(ctx.source != null, established, reason)
          && ctx.hooks.handlers == ctx.outside
          && channel.transport.closes == old(channel.transport.closes) + 1)
    {
      if tornDown {
        return;
      }
      tornDown := true;
      var steps: seq<Effect> := [StopLogCapture];
      var captureRaised := Attempt();
      if ctx.source != null {
        steps := steps + [StopSpeechSource];
        ctx.source.Stop();
        steps := steps + [StopBrailleSource];
        var brailleRaised := Attempt();
      }
      steps := steps + [RecordClosed(if reason.Some? then reason.value else External)];
      var recordRaised := Attempt();
      if established {
        steps := steps + [SignalEnded];
        var cueRaised := Attempt();
      }
      steps := steps + [CloseChannel];
      assert steps == TeardownSteps(ctx.source != null, established, reason);
      effects := effects + steps;
      channel.transport.Close();
      var closeRaised := Attempt();
    }

    /** A whole session, told on what there was to read and who asked.  However it ends, also
        by something raised out of the loop, it is torn down once and completely, and speech
        flows as it did before.  Replies, phase and end are what the history says; the factory
        was called at most once. */
    method Run() returns (crashed: bool)
      requires Valid() && Fresh() && ctx.hooks.handlers == ctx.outside
      modifies this, ctx, ctx.hooks, ctx.clock, channel.reader, channel.transport
      ensures tornDown && effects == TeardownSteps(ctx.source != null, established, reason)
      ensures ctx.hooks.handlers == old(ctx.hooks.handlers)
      ensures channel.transport.closes == old(channel.transport.closes) + 1
      ensures story.world == old(Outside()) && story.before == old(channel.reader.popped)
      ensures Concluded(crashed)
      ensures ctx.builds <= 1 && (established ==> ctx.Ready() && ctx.builds == 1)
    {
      hide Concluded, Recorded, OnTime, LineReader.Valid, SpeechBuffer.Valid, TeardownSteps;
      Begin();
      crashed := Loop();
      Teardown();
    }
  }

  /** A session with default windows that knows hello alone, over a transport that gives this
      much; nobody asks it for anything and its transcript never raises. */
  method HelloSession(decoder: Decoder, chunk: bytes) returns (session: Session)
    ensures fresh(session) && fresh(session.ctx) && fresh(session.ctx.hooks) && fresh(session.ctx.clock)
    ensures fresh(session.channel.reader) && fresh(session.channel.transport)
    ensures session.Valid() && session.Fresh() && session.ctx.hooks.handlers == session.ctx.outside
    ensures session.Outside() ==
              World(DEFAULTS, HELLO_ONLY, decoder, Inbox([], [Data(chunk, 0.0)]), 0.0, None, session.asks, session.noteFails)
    ensures forall n :: session.asks(n) == Nobody && !session.noteFails(n)
  {
    var clock := new Clock(0.0);
    var hooks := new FilterHooks();
    var transport := new ByteTransport(clock, [Data(chunk, 0.0)]);
    var channel := new JsonLinesChannel(transport, decoder);
    var ctx := new SessionContext(clock, hooks);
    session := new Session(channel, ctx, DEFAULTS, HELLO_ONLY, n => Nobody, n => false);
  }

  /** A client that says hello and then sends a fatal line loses the session it established: it
      ends by an exception. */
  method LoseToLine(decoder: Decoder, hello: bytes, ghost raw: map<string, Json>, line: bytes)
    returns (established: bool, crashed: bool, took: real)
    requires NEWLINE !in hello && Decode(decoder, hello) == Message(raw)
    requires ParseRequest(raw).Some? && ParseRequest(raw).value.cmd == "hello"
    requires NEWLINE !in line && Fatal(decoder, line)
    ensures established && took < DEFAULTS.heartbeat ==> crashed
  {
    hide Happens, Established, Replies, Requested, NthRead, ParseRequest, Decode, Fatal, Ended, Raised, Session.Valid;
    var session := HelloSession(decoder, hello + [NEWLINE] + (line + [NEWLINE]));
    ghost var world := session.Outside();
    assert FatalAfterHello(world, hello, raw, line);
    hide FatalAfterHello;
    crashed := session.Run();
    established := session.established;
    took := session.ctx.clock.now;
    if !crashed && established && took < DEFAULTS.heartbeat {
      FatalStoryIsFatal(session.story, hello, raw, line, took, session.reason.value);
    }
  }

  /** One byte that is no UTF-8 is enough, and so are brackets enough for the decoder to give
      up on. */
  method LoseToOneByte(decoder: Decoder, hello: bytes, ghost raw: map<string, Json>)
    returns (established: bool, crashed: bool, took: real)
    requires NEWLINE !in hello && Decode(decoder, hello) == Message(raw)
    requires ParseRequest(raw).Some? && ParseRequest(raw).value.cmd == "hello"
    ensures established && took < DEFAULTS.heartbeat ==> crashed
  {
    FatalLines(decoder, 0);
    established, crashed, took := LoseToLine(decoder, hello, raw, BAD_BYTE);
  }

  method LoseToNesting(decoder: Decoder, hello: bytes, ghost raw: map<string, Json>)
    returns (established: bool, crashed: bool, took: real)
    requires NEWLINE !in hello && Decode(decoder, hello) == Message(raw)
    requires ParseRequest(raw).Some? && ParseRequest(raw).value.cmd == "hello"
    ensures established && took < DEFAULTS.heartbeat ==> crashed
  {
    FatalLines(decoder, decoder.limit + 1);
    established, crashed, took := LoseToLine(decoder, hello, raw, Nested(decoder.limit + 1));
  }
}
