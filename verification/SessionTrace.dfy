/** What a bridge session does with what it hears, told on its whole history.

    A turn is one pass of the dispatch loop: what the read gave, when, whether a handler
    returned, and when the deadlines were checked.  Phase, replies, watchdog times and the
    verdict are functions of the turns; the class in Session is proved to keep them. */
module SessionTrace {
  import opened Framing
  import opened Json
  import opened Time
  import opened Contract
  import opened Buffers
  import opened JsonText

  datatype Reason =
    | ClientBye | ChannelClosed | HeartbeatTimeout | InactivityTimeout | HandshakeFailed | External

  datatype SessionConfig = SessionConfig(heartbeat: real, inactivity: real)

  const DEFAULTS := SessionConfig(30.0, 120.0)

  /** What each command is served by. */
  datatype Handler = Hello | Bye | Ping | WaitForSpeech | WaitToFinish | Operational

  type Registry = map<string, Handler>

  predicate AvailableBeforeHello(h: Handler) {
    h.Hello?
  }

  /** A ping proves liveness only. */
  predicate ResetsInactivity(h: Handler) {
    !h.Ping?
  }

  datatype Invocation = Invocation(id: int, cmd: string, params: map<string, Json>)

  function ParseRequest(raw: map<string, Json>): Option<Invocation> {
    if "id" !in raw || !raw["id"].Int? || "cmd" !in raw || !raw["cmd"].Str? then None
    else if "params" !in raw then Some(Invocation(raw["id"].i, raw["cmd"].s, map[]))
    else if raw["params"].Obj? then Some(Invocation(raw["id"].i, raw["cmd"].s, raw["params"].fields))
    else None
  }

  /** The id a reply can be attributed to, even when the request is not one. */
  function ExtractId(raw: map<string, Json>): Option<int> {
    if "id" in raw && raw["id"].Int? then Some(raw["id"].i) else None
  }

  const REQUEST_FIELDS: seq<Field> :=
    [Field("id", TInt, None), Field("cmd", TStr, None), Field("params", TDict(TAny), Some(PDict(map[])))]

  const ENVELOPE_TABLE := Table(map["Request" := REQUEST_FIELDS], map[])

  lemma EnvelopeKnown()
    ensures FieldsKnown(ENVELOPE_TABLE, REQUEST_FIELDS) && TableKnown(ENVELOPE_TABLE)
  {
    assert Known(ENVELOPE_TABLE, TAny);
    assert Known(ENVELOPE_TABLE, TDict(TAny));
    assert forall i | 0 <= i < 3 :: REQUEST_FIELDS[i].ty in [TInt, TStr, TDict(TAny)];
  }

  /** A frame is a request exactly when the contract's validator takes it for one. */
  lemma RequestIsContract(raw: map<string, Json>)
    ensures TableKnown(ENVELOPE_TABLE)
    ensures Coerced(ENVELOPE_TABLE, TClass("Request"), Obj(raw)).Some? <==> ParseRequest(raw).Some?
  {
    EnvelopeKnown();
    FieldsAccepted(ENVELOPE_TABLE, REQUEST_FIELDS, Obj(raw));
    RequestFields(raw);
    hide CoercedFields, FieldValue;
    assert Coerced(ENVELOPE_TABLE, TClass("Request"), Obj(raw)).Some? <==>
           CoercedFields(ENVELOPE_TABLE, REQUEST_FIELDS, Obj(raw)).Some?;
  }

  lemma RequestFields(raw: map<string, Json>)
    requires TableKnown(ENVELOPE_TABLE)
    ensures (forall i | 0 <= i < |REQUEST_FIELDS| :: FieldValue(ENVELOPE_TABLE, REQUEST_FIELDS[i], Obj(raw)).Some?) <==>
              ParseRequest(raw).Some?
  {
    hide CoercedFields, Embed, TableKnown;
    assert |REQUEST_FIELDS| == 3;
    assert FieldValue(ENVELOPE_TABLE, REQUEST_FIELDS[0], Obj(raw)).Some? <==> "id" in raw && raw["id"].Int?;
    assert FieldValue(ENVELOPE_TABLE, REQUEST_FIELDS[1], Obj(raw)).Some? <==> "cmd" in raw && raw["cmd"].Str?;
    if "params" in raw && raw["params"].Obj? {
      assert forall k | k in raw["params"].fields :: Coerced(ENVELOPE_TABLE, TAny, raw["params"].fields[k]).Some?;
      assert Coerced(ENVELOPE_TABLE, TDict(TAny), raw["params"]).Some?;
    }
    assert FieldValue(ENVELOPE_TABLE, REQUEST_FIELDS[2], Obj(raw)).Some? <==> ("params" in raw ==> raw["params"].Obj?);
  }

  // ---- reading ------------------------------------------------------------------------------------

  predicate Tail(b: byte) {
    0x80 <= b <= 0xBF
  }

  /** Well-formed UTF-8, section 4 of RFC 3629. */
  predicate IsUtf8(s: bytes)
    decreases |s|
  {
    || s == []
    || (s[0] < 0x80 && IsUtf8(s[1..]))
    || (|s| >= 2 && 0xC2 <= s[0] <= 0xDF && Tail(s[1]) && IsUtf8(s[2..]))
    || (|s| >= 3 && LongStart(s[0], s[1]) && Tail(s[1]) && Tail(s[2]) && IsUtf8(s[3..]))
    || (|s| >= 4 && LongestStart(s[0], s[1]) && Tail(s[1]) && Tail(s[2]) && Tail(s[3]) && IsUtf8(s[4..]))
  }

  predicate LongStart(a: byte, b: byte) {
    0xE0 <= a <= 0xEF && (a == 0xE0 ==> b >= 0xA0) && (a == 0xED ==> b <= 0x9F)
  }

  predicate LongestStart(a: byte, b: byte) {
    0xF0 <= a <= 0xF4 && (a == 0xF0 ==> b >= 0x90) && (a == 0xF4 ==> b <= 0x8F)
  }

  /** How deep the decoder's recursion goes, and what it makes of JSON text: None for what is
      not an object. */
  datatype Decoder = Decoder(limit: nat, parse: bytes -> Option<map<string, Json>>)

  /** What one line decodes to.  Bytes that are not UTF-8, and a decoder that gives up, raise
      something the session does not catch; anything else that is not a JSON object is a
      validation error. */
  datatype Decoded = NotUtf8 | TooDeep | Unreadable | Message(raw: map<string, Json>)

  function Decode(decoder: Decoder, line: bytes): (d: Decoded)
    ensures d.NotUtf8? <==> !IsUtf8(line)
    ensures d.TooDeep? <==> IsUtf8(line) && GivesUp(decoder.limit, line)
  {
    if !IsUtf8(line) then NotUtf8
    else if GivesUp(decoder.limit, line) then TooDeep
    else if !Accepts(decoder.limit, line) then Unreadable
    else
      match decoder.parse(line)
      case None => Unreadable
      case Some(raw) => Message(raw)
  }

  /** The lines that no handler of the session catches: a caller can tell by their bytes. */
  predicate Fatal(decoder: Decoder, line: bytes) {
    !IsUtf8(line) || GivesUp(decoder.limit, line)
  }

  /** An empty chunk is the end of the stream; once the events run out the peer is silent. */
  datatype RecvEvent = Data(chunk: bytes, took: Delay) | Idle | Broke

  datatype ReadResult = Line(decoded: Decoded) | TimedOut | EndOfChannel | Failed

  /** What is buffered, and what the transport will give. */
  datatype Inbox = Inbox(buffer: bytes, incoming: seq<RecvEvent>)

  /** What a read gives, what it leaves, and how long it takes: as long as data keeps coming
      and no line is complete, it goes on. */
  datatype Read = Read(result: ReadResult, left: Inbox, took: real)

  function NextMessage(decoder: Decoder, box: Inbox): (r: Read)
    ensures r.took >= 0.0
    decreases |box.incoming|
  {
    var i := FindNewline(box.buffer);
    if i >= 0 then Read(Line(Decode(decoder, box.buffer[..i])), box.(buffer := box.buffer[i + 1..]), 0.0)
    else if box.incoming == [] then Read(TimedOut, box, IDLE_READ)
    else
      var later := box.incoming[1..];
      match box.incoming[0]
      case Idle => Read(TimedOut, box.(incoming := later), IDLE_READ)
      case Broke => Read(Failed, box.(incoming := later), 0.0)
      case Data(chunk, took) =>
        if chunk == [] then Read(EndOfChannel, box.(incoming := later), took)
        else
          var rest := NextMessage(decoder, Inbox(box.buffer + chunk, later));
          rest.(took := took + rest.took)
  }

  /** What is buffered comes first ... */
  lemma LineInHand(decoder: Decoder, box: Inbox)
    requires FindNewline(box.buffer) >= 0
    ensures var i := FindNewline(box.buffer);
      NextMessage(decoder, box) == Read(Line(Decode(decoder, box.buffer[..i])), box.(buffer := box.buffer[i + 1..]), 0.0)
  {
    hide Decode;
  }

  /** ... and then whatever one event of the transport gives. */
  lemma OneReadOn(decoder: Decoder, box: Inbox)
    requires FindNewline(box.buffer) < 0
    ensures box.incoming == [] ==> NextMessage(decoder, box) == Read(TimedOut, box, IDLE_READ)
    ensures box.incoming != [] ==> (
        var event, later := box.incoming[0], box.(incoming := box.incoming[1..]);
        && (event.Idle? ==> NextMessage(decoder, box) == Read(TimedOut, later, IDLE_READ))
        && (event.Broke? ==> NextMessage(decoder, box) == Read(Failed, later, 0.0))
        && (event.Data? && event.chunk == [] ==> NextMessage(decoder, box) == Read(EndOfChannel, later, event.took))
        && (event.Data? && event.chunk != [] ==>
              var rest := NextMessage(decoder, later.(buffer := box.buffer + event.chunk));
              NextMessage(decoder, box) == rest.(took := event.took + rest.took)))
  {
    hide Decode, FindNewline;
  }

  /** When in a turn another thread asks for teardown, if it does. */
  datatype Interruption = Nobody | WhileReading | AfterHandling

  /** All that a session does not decide: its windows and commands, what is and will be there
      to read, when it starts, the teardown asked for before, what other threads ask for in
      each turn, and in which turns the transcript raises. */
  datatype World = World(
    config: SessionConfig, registry: Registry, decoder: Decoder, inbox: Inbox, start: real, first: Option<Reason>,
    asks: nat -> Interruption, noteFails: nat -> bool)

  function AfterReads(world: World, n: nat): Inbox {
    if n == 0 then world.inbox else NextMessage(world.decoder, AfterReads(world, n - 1)).left
  }

  /** What the n-th read gives, and how long it takes. */
  function NthRead(world: World, n: nat): ReadResult {
    NextMessage(world.decoder, AfterReads(world, n)).result
  }

  function NthTook(world: World, n: nat): real {
    NextMessage(world.decoder, AfterReads(world, n)).took
  }

  /** How long the reads that give data take, all told. */
  function Dripping(incoming: seq<RecvEvent>): (d: real)
    ensures d >= 0.0
  {
    if incoming == [] then 0.0 else (if incoming[0].Data? then incoming[0].took else 0.0) + Dripping(incoming[1..])
  }

  /** A read takes one idle poll at most, and the time that data kept coming in. */
  lemma {:induction false} ReadTakes(decoder: Decoder, box: Inbox)
    ensures NextMessage(decoder, box).took <= IDLE_READ + Dripping(box.incoming)
    decreases |box.incoming|
  {
    hide FindNewline, Decode;
    if FindNewline(box.buffer) < 0 && box.incoming != [] && box.incoming[0].Data? && box.incoming[0].chunk != [] {
      ReadTakes(decoder, Inbox(box.buffer + box.incoming[0].chunk, box.incoming[1..]));
    }
  }

  // ---- turns ----------------------------------------------------------------------------------

  /** What a turn hears of a read; the other reads are no turns. */
  function HeardAs(r: ReadResult): Option<Heard> {
    match r
    case TimedOut => Some(Silence)
    case Line(Unreadable) => Some(Garbage)
    case Line(Message(raw)) => Some(Frame(raw))
    case _ => None
  }

  datatype Heard = Silence | Garbage | Frame(raw: map<string, Json>)

  datatype Turn = Turn(heard: Heard, at: real, ok: bool, checked: real)

  datatype ReplyAttempt = Attempted(id: int, ok: bool)

  function HandlerFor(registry: Registry, raw: map<string, Json>): Option<Handler> {
    match ParseRequest(raw)
    case None => None
    case Some(request) => if request.cmd in registry then Some(registry[request.cmd]) else None
  }

  /** The handler a frame reaches: hello before the handshake, anything else after it. */
  function Dispatched(registry: Registry, established: bool, heard: Heard): Option<Handler> {
    if !heard.Frame? then None
    else
      match HandlerFor(registry, heard.raw)
      case None => None
      case Some(h) => if AvailableBeforeHello(h) == established then None else Some(h)
  }

  predicate Established(registry: Registry, trace: seq<Turn>) {
    trace != [] &&
    var n := |trace| - 1;
    Established(registry, trace[..n])
    || (Dispatched(registry, false, trace[n].heard).Some? && trace[n].ok)
  }

  function LastHeard(start: real, trace: seq<Turn>): real {
    if trace == [] then start
    else
      var n := |trace| - 1;
      if trace[n].heard.Silence? then LastHeard(start, trace[..n]) else trace[n].at
  }

  /** When a command that counts was last dispatched. */
  function LastReset(registry: Registry, start: real, trace: seq<Turn>): real {
    if trace == [] then start
    else
      var n := |trace| - 1;
      match Dispatched(registry, Established(registry, trace[..n]), trace[n].heard)
      case None => LastReset(registry, start, trace[..n])
      case Some(h) => if ResetsInactivity(h) then trace[n].at else LastReset(registry, start, trace[..n])
  }

  /** One reply attempt for each frame that carries an integer id, in order. */
  function Replies(trace: seq<Turn>): seq<ReplyAttempt> {
    if trace == [] then []
    else
      var n := |trace| - 1;
      Replies(trace[..n]) +
      if trace[n].heard.Frame? && ExtractId(trace[n].heard.raw).Some?
      then [Attempted(ExtractId(trace[n].heard.raw).value, trace[n].ok)]
      else []
  }

  /** What a deadline check at `now` decides: the heartbeat window first. */
  function DeadlineReason(
    config: SessionConfig, established: bool, lastHeard: real, lastReset: real, now: real): Option<Reason>
  {
    if now - lastHeard >= config.heartbeat then Some(if established then HeartbeatTimeout else HandshakeFailed)
    else if established && now - lastReset >= config.inactivity then Some(InactivityTimeout)
    else None
  }

  /** The reason the last turn ends the session with, if it does: before the handshake is
      done whatever was heard ends it, and otherwise the deadlines decide. */
  function Verdict(config: SessionConfig, registry: Registry, start: real, trace: seq<Turn>): Option<Reason>
    requires trace != []
  {
    var last := trace[|trace| - 1];
    var established := Established(registry, trace);
    if !established && !last.heard.Silence? then Some(HandshakeFailed)
    else
      DeadlineReason(config, established, LastHeard(start, trace), LastReset(registry, start, trace), last.checked)
  }

  /** No turn so far ended the session. */
  ghost predicate Running(config: SessionConfig, registry: Registry, start: real, trace: seq<Turn>) {
    forall n | 0 < n <= |trace| :: Verdict(config, registry, start, trace[..n]).None?
  }

  // ---- what handlers may do -------------------------------------------------------------------------

  const PROTOCOL_VERSION := 1
  const LOG_LEVELS: set<string> := {"io", "debug", "debugwarning", "info"}

  datatype HelloParams = HelloParams(silent: bool, version: int)

  function ParseHello(params: map<string, Json>): Option<HelloParams> {
    if "mode" !in params || params["mode"] !in {Str("live"), Str("silent")} then None
    else if "protocolVersion" !in params || !params["protocolVersion"].Int? then None
    else if "logLevel" in params && !params["logLevel"].Null?
         && !(params["logLevel"].Str? && params["logLevel"].s in LOG_LEVELS) then None
    else Some(HelloParams(params["mode"] == Str("silent"), params["protocolVersion"].i))
  }

  predicate Acceptable(params: map<string, Json>) {
    ParseHello(params).Some? && ParseHello(params).value.version == PROTOCOL_VERSION
  }

  function AfterIndexOf(params: map<string, Json>): Option<Option<int>> {
    if "afterIndex" !in params || params["afterIndex"].Null? then Some(None)
    else if params["afterIndex"].Int? then Some(Some(params["afterIndex"].i))
    else None
  }

  function TimeoutOf(params: map<string, Json>): Option<real> {
    if "timeout" !in params then Some(5.0)
    else if params["timeout"].Int? then Some(params["timeout"].i as real)
    else if params["timeout"].Num? then Some(params["timeout"].r)
    else None
  }

  predicate IsWaitFor(params: map<string, Json>) {
    "text" in params && params["text"].Str? && AfterIndexOf(params).Some? && TimeoutOf(params).Some?
  }

  /** How long a handler may take: a ping or a bye no time, a wait no longer than its own
      timeout makes it, anything else, which may block on the reader, any time. */
  predicate Took(h: Handler, params: map<string, Json>, from: real, to: real) {
    match h
    case Bye => to == from
    case Ping => to == from
    case WaitForSpeech => if IsWaitFor(params) then from <= to <= from + WaitLength(TimeoutOf(params).value) else to == from
    case WaitToFinish =>
      if TimeoutOf(params).Some? then from <= to <= from + WaitLength(TimeoutOf(params).value) else to == from
    case Hello => from <= to
    case Operational => from <= to
  }

  /** Whether a handler may return; the others raise for reasons of their own. */
  predicate Responds(h: Handler, params: map<string, Json>, ok: bool) {
    match h
    case Bye => ok
    case Ping => ok
    case WaitForSpeech => ok == IsWaitFor(params)
    case WaitToFinish => ok == TimeoutOf(params).Some?
    case Hello => ok ==> Acceptable(params)
    case Operational => true
  }

  predicate Timely(registry: Registry, established: bool, t: Turn) {
    match Dispatched(registry, established, t.heard)
    case Some(h) =>
      var params := ParseRequest(t.heard.raw).value.params;
      Took(h, params, t.at, t.checked) && Responds(h, params, t.ok)
    case None => t.checked == t.at && !t.ok
  }

  // ---- what a history is anchored to -----------------------------------------------------------------

  /** When the last of these turns was over. */
  function EndTime(start: real, trace: seq<Turn>): real {
    if trace == [] then start else trace[|trace| - 1].checked
  }

  /** Each turn hears exactly what the transport has for its read, as soon after the turn
      before it as that read takes. */
  ghost predicate Anchored(world: World, trace: seq<Turn>) {
    forall n | 0 <= n < |trace| ::
      && HeardAs(NthRead(world, n)) == Some(trace[n].heard)
      && trace[n].at == EndTime(world.start, trace[..n]) + NthTook(world, n)
  }

  /** What was heard, silence apart. */
  function Spoken(trace: seq<Turn>): seq<Heard> {
    if trace == [] then []
    else
      var n := |trace| - 1;
      Spoken(trace[..n]) + if trace[n].heard.Silence? then [] else [trace[n].heard]
  }

  /** The turns that are not silent are exactly these lines, decoded, in order. */
  ghost predicate Told(decoder: Decoder, lines: seq<bytes>, trace: seq<Turn>) {
    && |lines| == |Spoken(trace)|
    && forall i | 0 <= i < |lines| :: HeardAs(Line(Decode(decoder, lines[i]))) == Some(Spoken(trace)[i])
  }

  function Earlier(first: Option<Reason>, second: Option<Reason>): Option<Reason> {
    if first.Some? then first else second
  }

  /** The teardown asked for by the end of these turns: the first request wins. */
  function Requested(world: World, trace: seq<Turn>): Option<Reason> {
    if trace == [] then world.first
    else
      var n := |trace| - 1;
      RequestedBy(Requested(world, trace[..n]), world.asks(n),
        Dispatched(world.registry, Established(world.registry, trace[..n]), trace[n].heard) == Some(Bye))
  }

  function RequestedBy(before: Option<Reason>, interruption: Interruption, bye: bool): Option<Reason> {
    var read := Earlier(before, if interruption.WhileReading? then Some(External) else None);
    var handled := Earlier(read, if bye then Some(ClientBye) else None);
    Earlier(handled, if interruption.AfterHandling? then Some(External) else None)
  }

  /** Nobody had asked when any of these turns began: after a request a session takes no
      turn but the one it came in. */
  ghost predicate Unasked(world: World, trace: seq<Turn>) {
    forall n | 0 <= n < |trace| :: Requested(world, trace[..n]).None?
  }

  /** What a session can only put in its transcript. */
  predicate OnlyNoted(established: bool, heard: Heard) {
    match heard
    case Silence => false
    case Garbage => established
    case Frame(raw) => ParseRequest(raw).None? && ExtractId(raw).None?
  }

  /** What the session does not catch: a broken transport, bytes that are not UTF-8, a decoder
      that gives up, and a transcript that raises when it has to note something. */
  predicate Escapes(established: bool, r: ReadResult, noteFails: bool) {
    match r
    case Failed => true
    case EndOfChannel => false
    case TimedOut => false
    case Line(NotUtf8) => true
    case Line(TooDeep) => true
    case Line(_) => noteFails && OnlyNoted(established, HeardAs(r).value)
  }

  /** The history was ended by its last turn, because it was asked, or by a closed channel. */
  ghost predicate Ended(world: World, trace: seq<Turn>, r: Reason) {
    || (trace != [] && Running(world.config, world.registry, world.start, trace[..|trace| - 1])
        && Verdict(world.config, world.registry, world.start, trace) == Some(r))
    || (Running(world.config, world.registry, world.start, trace) && Requested(world, trace) == Some(r))
    || (Running(world.config, world.registry, world.start, trace) && Requested(world, trace).None?
        && r == ChannelClosed && NthRead(world, |trace|) == EndOfChannel)
  }

  /** The history was ended by something raised out of the loop. */
  ghost predicate Raised(world: World, trace: seq<Turn>) {
    && Running(world.config, world.registry, world.start, trace) && Requested(world, trace).None?
    && Escapes(Established(world.registry, trace), NthRead(world, |trace|), world.noteFails(|trace|))
  }

  /** A history has one end: whether it raised, and the reason otherwise, are settled by what
      was there to read and who asked. */
  lemma OneEnd(world: World, trace: seq<Turn>, r: Reason, other: Reason)
    requires Ended(world, trace, r)
    ensures !Raised(world, trace)
    ensures Ended(world, trace, other) ==> r == other
  {
    hide Verdict, Requested, NthRead, Escapes;
    assert trace[..|trace|] == trace;
    if Running(world.config, world.registry, world.start, trace) && trace != [] {
      assert Verdict(world.config, world.registry, world.start, trace[..|trace|]).None?;
    }
    if NthRead(world, |trace|) == EndOfChannel {
      assert !Escapes(Established(world.registry, trace), EndOfChannel, world.noteFails(|trace|)) by {
        EndIsCaught(Established(world.registry, trace), world.noteFails(|trace|));
      }
    }
  }

  lemma EndIsCaught(established: bool, noteFails: bool)
    ensures !Escapes(established, EndOfChannel, noteFails)
  {
  }

  ghost predicate Honest(registry: Registry, trace: seq<Turn>) {
    forall n | 0 <= n < |trace| :: Timely(registry, Established(registry, trace[..n]), trace[n])
  }

  /** A history that can happen in this world: every handler behaved as it can, every turn
      heard what was there at its time, its lines are these, and none began once asked. */
  ghost predicate Happens(world: World, lines: seq<bytes>, trace: seq<Turn>) {
    && Honest(world.registry, trace) && Anchored(world, trace)
    && Told(world.decoder, lines, trace) && Unasked(world, trace)
  }

  /** A run so far: its turns, the lines they read, the line that raised if one did, and the
      time that a read took which was no turn. */
  datatype Story = Story(
    world: World, before: seq<bytes>, lines: seq<bytes>, fatal: seq<bytes>, spent: real, trace: seq<Turn>)
  {
    /** All the lines that its reader has handed out. */
    function Popped(): seq<bytes> {
      before + lines + fatal
    }

    function Next(t: Turn, line: bytes): Story {
      this.(trace := trace + [t], lines := if t.heard.Silence? then lines else lines + [line])
    }

    /** The line that raised is the one the next read gives, and the time spent is its. */
    ghost predicate DiedOf(raised: bool) {
      && (fatal == [] || (raised && |fatal| == 1 && NthRead(world, |trace|) == Line(Decode(world.decoder, fatal[0]))))
      && (raised && NthRead(world, |trace|).Line? ==> fatal != [])
      && (spent == NthTook(world, |trace|) || (!raised && spent == 0.0))
    }
  }

  // ---- the watchdogs -----------------------------------------------------------------------------

  lemma LastTurn(trace: seq<Turn>, t: Turn)
    ensures (trace + [t])[..|trace|] == trace
  {
  }

  /** One more turn, told on the history before it. */
  lemma NextTurn(registry: Registry, start: real, trace: seq<Turn>, t: Turn)
    ensures Established(registry, trace + [t]) <==>
              Established(registry, trace) || (Dispatched(registry, false, t.heard).Some? && t.ok)
    ensures LastHeard(start, trace + [t]) == if t.heard.Silence? then LastHeard(start, trace) else t.at
    ensures LastReset(registry, start, trace + [t]) ==
              match Dispatched(registry, Established(registry, trace), t.heard) {
                case None => LastReset(registry, start, trace)
                case Some(h) => if ResetsInactivity(h) then t.at else LastReset(registry, start, trace)
              }
  {
    LastTurn(trace, t);
  }

  lemma NextReplies(trace: seq<Turn>, t: Turn)
    ensures Replies(trace + [t]) == Replies(trace) +
              if t.heard.Frame? && ExtractId(t.heard.raw).Some?
              then [Attempted(ExtractId(t.heard.raw).value, t.ok)] else []
  {
    LastTurn(trace, t);
  }

  lemma StillAnchored(world: World, trace: seq<Turn>, t: Turn)
    requires Anchored(world, trace) && HeardAs(NthRead(world, |trace|)) == Some(t.heard)
    requires t.at == EndTime(world.start, trace) + NthTook(world, |trace|)
    ensures Anchored(world, trace + [t])
  {
    hide NthRead, NthTook;
    LastTurn(trace, t);
    forall n | 0 <= n < |trace| ensures (trace + [t])[..n] == trace[..n] {
    }
  }

  lemma StillTold(decoder: Decoder, lines: seq<bytes>, trace: seq<Turn>, t: Turn, line: bytes)
    requires Told(decoder, lines, trace)
    requires !t.heard.Silence? ==> HeardAs(Line(Decode(decoder, line))) == Some(t.heard)
    ensures Told(decoder, if t.heard.Silence? then lines else lines + [line], trace + [t])
  {
    hide Decode;
    LastTurn(trace, t);
  }

  lemma StillUnasked(world: World, trace: seq<Turn>, t: Turn)
    requires Unasked(world, trace) && Requested(world, trace).None?
    ensures Unasked(world, trace + [t])
  {
    hide Requested;
    LastTurn(trace, t);
    forall n | 0 <= n < |trace + [t]| ensures Requested(world, (trace + [t])[..n]).None? {
      if n < |trace| {
        assert (trace + [t])[..n] == trace[..n];
      }
    }
  }

  lemma NextRequested(world: World, trace: seq<Turn>, t: Turn)
    ensures Requested(world, trace + [t]) ==
              RequestedBy(Requested(world, trace), world.asks(|trace|),
                Dispatched(world.registry, Established(world.registry, trace), t.heard) == Some(Bye))
  {
    LastTurn(trace, t);
  }

  lemma StillHonest(registry: Registry, trace: seq<Turn>, t: Turn)
    requires Honest(registry, trace) && Timely(registry, Established(registry, trace), t)
    ensures Honest(registry, trace + [t])
  {
    hide Established, Timely;
    LastTurn(trace, t);
    forall n | 0 <= n < |trace| ensures (trace + [t])[..n] == trace[..n] {
    }
  }

  lemma StillRunning(config: SessionConfig, registry: Registry, start: real, trace: seq<Turn>, t: Turn)
    requires Running(config, registry, start, trace) && Verdict(config, registry, start, trace + [t]).None?
    ensures Running(config, registry, start, trace + [t])
  {
    hide Verdict;
    var longer := trace + [t];
    forall n | 0 < n <= |longer| ensures Verdict(config, registry, start, longer[..n]).None? {
      if n <= |trace| {
        assert longer[..n] == trace[..n];
      } else {
        assert longer[..n] == longer;
      }
    }
  }

  /** The three things a session remembers, and the reason it ends with. */
  datatype Memory = Memory(established: bool, lastHeard: real, lastReset: real, reason: Option<Reason>)

  /** What a turn does to them. */
  function Remembered(config: SessionConfig, registry: Registry, m: Memory, t: Turn): Memory {
    var established := m.established || (Dispatched(registry, false, t.heard).Some? && t.ok);
    var lastHeard := if t.heard.Silence? then m.lastHeard else t.at;
    var lastReset :=
      match Dispatched(registry, m.established, t.heard)
      case None => m.lastReset
      case Some(h) => if ResetsInactivity(h) then t.at else m.lastReset;
    Memory(established, lastHeard, lastReset,
      if !established && !t.heard.Silence? then Some(HandshakeFailed)
      else DeadlineReason(config, established, lastHeard, lastReset, t.checked))
  }

  ghost predicate Remembers(config: SessionConfig, registry: Registry, start: real, trace: seq<Turn>, m: Memory) {
    && m.established == Established(registry, trace)
    && (m.reason.None? ==>
          && m.lastHeard == LastHeard(start, trace)
          && m.lastReset == LastReset(registry, start, trace)
          && Running(config, registry, start, trace))
  }

  /** Remembering turn by turn is remembering the history: what a session keeps is enough
      to give the verdict. */
  lemma NextMemory(config: SessionConfig, registry: Registry, start: real, trace: seq<Turn>, m: Memory, t: Turn)
    requires Remembers(config, registry, start, trace, m) && m.reason.None?
    ensures Remembers(config, registry, start, trace + [t], Remembered(config, registry, m, t))
    ensures Remembered(config, registry, m, t).reason == Verdict(config, registry, start, trace + [t])
  {
    NextTurn(registry, start, trace, t);
    hide Established, LastHeard, LastReset, Running;
    if Verdict(config, registry, start, trace + [t]).None? {
      StillRunning(config, registry, start, trace, t);
    }
  }

  /** One more turn that hears the next read, when the turn before it is over. */
  lemma NextHappens(story: Story, t: Turn, line: bytes)
    requires Happens(story.world, story.lines, story.trace) && Requested(story.world, story.trace).None?
    requires HeardAs(NthRead(story.world, |story.trace|)) == Some(t.heard)
    requires t.at == EndTime(story.world.start, story.trace) + NthTook(story.world, |story.trace|)
    requires Timely(story.world.registry, Established(story.world.registry, story.trace), t)
    requires !t.heard.Silence? ==> HeardAs(Line(Decode(story.world.decoder, line))) == Some(t.heard)
    ensures var next := story.Next(t, line);
      Happens(next.world, next.lines, next.trace) && EndTime(next.world.start, next.trace) == t.checked
  {
    hide Anchored, Told, Unasked, Honest, Requested, NthRead, NthTook, Timely, Established, Decode;
    StillHonest(story.world.registry, story.trace, t);
    StillAnchored(story.world, story.trace, t);
    StillTold(story.world.decoder, story.lines, story.trace, t, line);
    StillUnasked(story.world, story.trace, t);
  }

  /** All that one more turn settles: what is remembered and asked for next, and the end if
      it is one. */
  lemma NextSettled(world: World, trace: seq<Turn>, m: Memory, t: Turn)
    requires Remembers(world.config, world.registry, world.start, trace, m) && m.reason.None?
    requires Requested(world, trace).None?
    ensures var next := Remembered(world.config, world.registry, m, t);
      && Remembers(world.config, world.registry, world.start, trace + [t], next)
      && (next.reason.Some? ==> Ended(world, trace + [t], next.reason.value))
    ensures Requested(world, trace + [t]) ==
              RequestedBy(None, world.asks(|trace|), Dispatched(world.registry, m.established, t.heard) == Some(Bye))
  {
    hide Verdict, Requested, Running, Established, LastHeard, LastReset, Remembered;
    NextMemory(world.config, world.registry, world.start, trace, m, t);
    NextRequested(world, trace, t);
    LastTurn(trace, t);
  }

  lemma SilenceSurvived(config: SessionConfig, registry: Registry, m: Memory, t: Turn)
    requires t.heard.Silence? && Remembered(config, registry, m, t).reason.None? && Timely(registry, m.established, t)
    ensures Remembered(config, registry, m, t).lastHeard == m.lastHeard
    ensures t.at == t.checked < m.lastHeard + config.heartbeat
  {
  }

  lemma NothingYet(world: World)
    ensures Happens(world, [], []) && EndTime(world.start, []) == world.start
    ensures Remembers(world.config, world.registry, world.start, [], Memory(false, world.start, world.start, None))
    ensures Replies([]) == [] && !Established(world.registry, [])
    ensures AfterReads(world, 0) == world.inbox && Requested(world, []) == world.first
  {
  }

  // ---- a fatal line after hello ---------------------------------------------------------------------

  const BAD_BYTE: bytes := [0xFF]

  const HELLO_ONLY: Registry := map["hello" := Hello]

  /** Each of these bytes alone is UTF-8. */
  lemma {:induction false} AsciiIsUtf8(s: bytes)
    requires forall b | b in s :: b < 0x80
    ensures IsUtf8(s)
    decreases |s|
  {
    if s != [] {
      assert forall b | b in s[1..] :: b in s;
      AsciiIsUtf8(s[1..]);
      assert s[0] in s;
    }
  }

  /** Two kinds of fatal line: one byte that is no UTF-8, and more brackets than the decoder
      goes deep. */
  lemma FatalLines(decoder: Decoder, n: nat)
    ensures Fatal(decoder, BAD_BYTE) && NEWLINE !in BAD_BYTE
    ensures n > decoder.limit ==> IsUtf8(Nested(n)) && Fatal(decoder, Nested(n)) && NEWLINE !in Nested(n)
  {
    assert !IsUtf8(BAD_BYTE);
    NestedGivesUp(decoder.limit, n);
    AsciiIsUtf8(Nested(n));
  }

  /** JSON text is fatal exactly when it is nested deeper than the decoder's limit. */
  lemma FatalJson(decoder: Decoder, line: bytes)
    requires IsUtf8(line) && IsJson(line)
    ensures Fatal(decoder, line) <==> Depth(line) > decoder.limit
  {
    JsonGivesUp(decoder.limit, line);
  }

  /** A hello, then a fatal line; nobody asks for anything and the transcript never raises. */
  ghost predicate FatalAfterHello(world: World, hello: bytes, raw: map<string, Json>, line: bytes) {
    && world.config == DEFAULTS && world.registry == HELLO_ONLY && world.first == None
    && (forall n :: world.asks(n) == Nobody && !world.noteFails(n))
    && NEWLINE !in hello && NEWLINE !in line
    && Decode(world.decoder, hello) == Message(raw) && Fatal(world.decoder, line)
    && ParseRequest(raw).Some? && ParseRequest(raw).value.cmd == "hello"
    && world.inbox == Inbox([], [Data(hello + [NEWLINE] + (line + [NEWLINE]), 0.0)])
  }

  lemma LineThenRest(decoder: Decoder, line: bytes, left: bytes)
    requires NEWLINE !in line
    ensures NextMessage(decoder, Inbox(line + [NEWLINE] + left, [])) == Read(Line(Decode(decoder, line)), Inbox(left, []), 0.0)
  {
    hide Decode;
    var buffer := line + [NEWLINE] + left;
    var i := FindNewline(buffer);
    assert buffer[|line|] == NEWLINE;
    assert i == |line| && buffer[..|line|] == line && buffer[|line| + 1..] == left;
  }

  lemma LineArrives(decoder: Decoder, line: bytes, left: bytes)
    requires NEWLINE !in line
    ensures NextMessage(decoder, Inbox([], [Data(line + [NEWLINE] + left, 0.0)]))
              == Read(Line(Decode(decoder, line)), Inbox(left, []), 0.0)
  {
    hide Decode;
    LineThenRest(decoder, line, left);
    var buffer := line + [NEWLINE] + left;
    assert [] + buffer == buffer && [Data(buffer, 0.0)][1..] == [] && FindNewline([]) == -1;
  }

  lemma ReadsFatalAfterHello(world: World, hello: bytes, raw: map<string, Json>, line: bytes)
    requires FatalAfterHello(world, hello, raw, line)
    ensures NthRead(world, 0) == Line(Message(raw)) && NthTook(world, 0) == 0.0
    ensures NthRead(world, 1) in {Line(NotUtf8), Line(TooDeep)}
  {
    assert Decode(world.decoder, line) in {NotUtf8, TooDeep};
    hide ParseRequest, FindNewline, NextMessage, Decode, Fatal;
    LineArrives(world.decoder, hello, line + [NEWLINE]);
    LineThenRest(world.decoder, line, []);
    assert line + [NEWLINE] + [] == line + [NEWLINE];
    assert AfterReads(world, 0) == world.inbox;
    assert AfterReads(world, 1) == NextMessage(world.decoder, AfterReads(world, 0)).left;
  }

  /** No history in which that hello succeeded within the windows ends in good order. */
  lemma FatalLineIsFatal(
    world: World, hello: bytes, raw: map<string, Json>, line: bytes, lines: seq<bytes>, trace: seq<Turn>, r: Reason)
    requires FatalAfterHello(world, hello, raw, line)
    requires Happens(world, lines, trace) && Established(world.registry, trace)
    requires EndTime(world.start, trace) < world.start + DEFAULTS.heartbeat
    ensures !Ended(world, trace, r)
  {
    hide NthRead, NthTook, ParseRequest, Decode, Fatal;
    ReadsFatalAfterHello(world, hello, raw, line);
    assert |trace| == 1;
    assert trace[..0] == [] && trace[..1] == trace;
    assert HeardAs(NthRead(world, 0)) == Some(trace[0].heard);
    assert trace[0].heard == Frame(raw) && trace[0].at == world.start;
  }

  /** However long its last read took that was no turn. */
  lemma FatalStoryIsFatal(story: Story, hello: bytes, raw: map<string, Json>, line: bytes, now: real, r: Reason)
    requires FatalAfterHello(story.world, hello, raw, line) && story.DiedOf(false)
    requires Happens(story.world, story.lines, story.trace) && Established(story.world.registry, story.trace)
    requires now == EndTime(story.world.start, story.trace) + story.spent && now < story.world.start + DEFAULTS.heartbeat
    ensures !Ended(story.world, story.trace, r)
  {
    assert story.spent >= 0.0;
    hide FatalAfterHello, Happens, Established, Ended, EndTime, NthRead;
    FatalLineIsFatal(story.world, hello, raw, line, story.lines, story.trace, r);
  }

  const HELLO_PARAMS := map["mode" := Str("live"), "protocolVersion" := Int(PROTOCOL_VERSION)]
  const HELLO_FRAME := map["id" := Int(1), "cmd" := Str("hello"), "params" := Obj(HELLO_PARAMS)]
  const HELLO_LINE: bytes := [OPEN_OBJECT, CLOSE_OBJECT]

  lemma HelloIsHeard()
    ensures ParseRequest(HELLO_FRAME) == Some(Invocation(1, "hello", HELLO_PARAMS)) && Acceptable(HELLO_PARAMS)
    ensures Dispatched(HELLO_ONLY, false, Frame(HELLO_FRAME)) == Some(Hello)
  {
  }

  lemma HelloLineDecodes(decoder: Decoder)
    requires decoder.limit > 0 && decoder.parse(HELLO_LINE) == Some(HELLO_FRAME)
    ensures Decode(decoder, HELLO_LINE) == Message(HELLO_FRAME)
  {
    AsciiIsUtf8(HELLO_LINE);
    assert HELLO_LINE[..1] == [OPEN_OBJECT] && HELLO_LINE[..1][..0] == [];
    assert Scanned(decoder.limit, [OPEN_OBJECT]) == At(KeyOrEnd, [Object]);
    assert Scanned(decoder.limit, HELLO_LINE) == At(After, []);
  }

  /** The world of a hello that succeeds at once, and of a fatal line behind it. */
  function HelloWorld(limit: nat, line: bytes): World {
    World(DEFAULTS, HELLO_ONLY, Decoder(limit, text => if text == HELLO_LINE then Some(HELLO_FRAME) else None),
      Inbox([], [Data(HELLO_LINE + [NEWLINE] + (line + [NEWLINE]), 0.0)]), 0.0, None, n => Nobody, n => false)
  }

  const HELLO_TURN := Turn(Frame(HELLO_FRAME), 0.0, true, 0.0)

  lemma HelloWorldIsFatal(limit: nat, line: bytes)
    requires limit > 0 && NEWLINE !in line && (!IsUtf8(line) || GivesUp(limit, line))
    ensures FatalAfterHello(HelloWorld(limit, line), HELLO_LINE, HELLO_FRAME, line)
  {
    HelloIsHeard();
    hide ParseRequest, IsUtf8, GivesUp;
    HelloLineDecodes(HelloWorld(limit, line).decoder);
    hide Decode;
  }

  lemma HelloTurn(world: World, line: bytes)
    requires FatalAfterHello(world, HELLO_LINE, HELLO_FRAME, line) && world.start == 0.0
    ensures Happens(world, [HELLO_LINE], [HELLO_TURN]) && EndTime(world.start, [HELLO_TURN]) == 0.0
    ensures Established(world.registry, [HELLO_TURN]) && Requested(world, [HELLO_TURN]).None?
    ensures Running(world.config, world.registry, world.start, [HELLO_TURN])
  {
    HelloIsHeard();
    ReadsFatalAfterHello(world, HELLO_LINE, HELLO_FRAME, line);
    hide ParseRequest, HandlerFor, Acceptable, Dispatched, Decode, Fatal, NthRead, NthTook;
    NothingYet(world);
    assert [] + [HELLO_TURN] == [HELLO_TURN] && [] + [HELLO_LINE] == [HELLO_LINE];
    NextHappens(Story(world, [], [], [], 0.0, []), HELLO_TURN, HELLO_LINE);
    NextSettled(world, [], Memory(false, 0.0, 0.0, None), HELLO_TURN);
    hide Happens, Running, Requested;
    assert [HELLO_TURN][..0] == [];
  }

  /** There is such a history for every fatal line: the hello succeeds at once. */
  lemma FatalLineHappens(limit: nat, line: bytes)
    requires limit > 0 && NEWLINE !in line && (!IsUtf8(line) || GivesUp(limit, line))
    ensures var world := HelloWorld(limit, line);
      && FatalAfterHello(world, HELLO_LINE, HELLO_FRAME, line) && Happens(world, [HELLO_LINE], [HELLO_TURN])
      && Established(world.registry, [HELLO_TURN]) && EndTime(world.start, [HELLO_TURN]) == world.start
      && Raised(world, [HELLO_TURN])
  {
    var world := HelloWorld(limit, line);
    HelloWorldIsFatal(limit, line);
    hide IsUtf8, GivesUp, FatalAfterHello;
    HelloTurn(world, line);
    ReadsFatalAfterHello(world, HELLO_LINE, HELLO_FRAME, line);
    hide Happens, Running, Requested, NthRead, Established, EndTime;
  }

  /** A peer that sends a byte at a time and no newline keeps a session from looking at its
      deadlines: its read goes on as long as they come. */
  lemma {:induction false} DripsHoldTheLoop(decoder: Decoder, box: Inbox, n: nat)
    requires FindNewline(box.buffer) < 0 && box.incoming == seq(n, _ => Data([0], IDLE_READ))
    ensures NextMessage(decoder, box).result == TimedOut
    ensures NextMessage(decoder, box).took == (n + 1) as real * IDLE_READ
    decreases n
  {
    if n > 0 {
      var later := Inbox(box.buffer + [0], box.incoming[1..]);
      assert later.incoming == seq(n - 1, _ => Data([0], IDLE_READ)) && later.buffer[|box.buffer|] == 0;
      DripsHoldTheLoop(decoder, later, n - 1);
      assert (n + 1) as real * IDLE_READ == n as real * IDLE_READ + IDLE_READ;
    }
  }

  /** In an established session: silence, unreadable lines, invalid requests, unknown
      commands, repeated hellos and pings. */
  predicate ProvesNoWork(registry: Registry, heard: Heard) {
    heard.Frame? ==>
      match HandlerFor(registry, heard.raw)
      case None => true
      case Some(h) => h.Hello? || h.Ping?
  }

  lemma {:induction false} EstablishedStays(registry: Registry, trace: seq<Turn>, more: seq<Turn>)
    requires Established(registry, trace)
    ensures Established(registry, trace + more)
    decreases |more|
  {
    if more == [] {
      assert trace + more == trace;
    } else {
      EstablishedStays(registry, trace, more[..|more| - 1]);
      assert (trace + more)[..|trace + more| - 1] == trace + more[..|more| - 1];
    }
  }

  /** However many turns prove no work, the inactivity window still counts from the last
      command that did: the session ends at the first check the window has passed at, and
      a session that goes on has not reached it. */
  lemma {:induction false} NothingElsePostpones(
    config: SessionConfig, registry: Registry, start: real, trace: seq<Turn>, more: seq<Turn>)
    requires Established(registry, trace) && more != []
    requires forall i | 0 <= i < |more| :: ProvesNoWork(registry, more[i].heard)
    ensures LastReset(registry, start, trace + more) == LastReset(registry, start, trace)
    ensures var idle := more[|more| - 1].checked - LastReset(registry, start, trace);
      var verdict := Verdict(config, registry, start, trace + more);
      && (verdict.None? ==> idle < config.inactivity)
      && (idle >= config.inactivity ==> verdict == Some(InactivityTimeout) || verdict == Some(HeartbeatTimeout))
      && (verdict == Some(InactivityTimeout) ==> idle >= config.inactivity)
    decreases |more|
  {
    var n := |more| - 1;
    assert (trace + more)[..|trace + more| - 1] == trace + more[..n];
    EstablishedStays(registry, trace, more[..n]);
    EstablishedStays(registry, trace, more);
    if n == 0 {
      assert trace + more[..n] == trace;
    } else {
      NothingElsePostpones(config, registry, start, trace, more[..n]);
    }
  }

  /** A peer that says nothing is given up on exactly when its window has passed since it
      was last heard. */
  lemma {:induction false} SilenceIsMeasured(
    config: SessionConfig, registry: Registry, start: real, trace: seq<Turn>, more: seq<Turn>)
    requires Established(registry, trace) && more != []
    requires forall i | 0 <= i < |more| :: more[i].heard.Silence?
    ensures var silent := more[|more| - 1].checked - LastHeard(start, trace);
      Verdict(config, registry, start, trace + more) == Some(HeartbeatTimeout) <==> silent >= config.heartbeat
    decreases |more|
  {
    EstablishedStays(registry, trace, more);
    HeardBefore(start, trace, more);
  }

  lemma {:induction false} HeardBefore(start: real, trace: seq<Turn>, more: seq<Turn>)
    requires forall i | 0 <= i < |more| :: more[i].heard.Silence?
    ensures LastHeard(start, trace + more) == LastHeard(start, trace)
    decreases |more|
  {
    if more == [] {
      assert trace + more == trace;
    } else {
      assert (trace + more)[..|trace + more| - 1] == trace + more[..|more| - 1];
      HeardBefore(start, trace, more[..|more| - 1]);
    }
  }

  // ---- waits and watchdogs -------------------------------------------------------------------------

  ghost predicate IsWait(registry: Registry, t: Turn, timeout: real) {
    && (Dispatched(registry, true, t.heard) == Some(WaitForSpeech) || Dispatched(registry, true, t.heard) == Some(WaitToFinish))
    && TimeoutOf(ParseRequest(t.heard.raw).value.params) == Some(timeout)
  }

  /** Any command that counts ends its own session exactly when it takes a window's length:
      a wait, or an operation that blocks on the reader. */
  lemma CommandAndWindows(config: SessionConfig, registry: Registry, start: real, trace: seq<Turn>, t: Turn)
    requires Established(registry, trace) && Dispatched(registry, true, t.heard).Some?
    requires ResetsInactivity(Dispatched(registry, true, t.heard).value)
    ensures Verdict(config, registry, start, trace + [t]).None? <==>
              t.checked - t.at < config.heartbeat && t.checked - t.at < config.inactivity
  {
    LastTurn(trace, t);
  }

  /** A wait shorter than both windows by a poll interval cannot trip a watchdog ... */
  lemma ShortWaitIsSafe(config: SessionConfig, registry: Registry, start: real, trace: seq<Turn>, t: Turn, timeout: real)
    requires Established(registry, trace) && IsWait(registry, t, timeout) && Timely(registry, true, t)
    requires var wanted := if timeout < 0.0 then 0.0 else timeout;
      wanted + POLL_INTERVAL <= config.heartbeat && wanted + POLL_INTERVAL <= config.inactivity
    ensures Verdict(config, registry, start, trace + [t]).None?
  {
    CommandAndWindows(config, registry, start, trace, t);
    WaitOvershoots(timeout);
  }

  /** ... and one that finds nothing does exactly when its length reaches a window: with the
      default windows, from a timeout just above 29.97 seconds on. */
  lemma LongWaitEndsSession(registry: Registry, start: real, trace: seq<Turn>, t: Turn, timeout: real)
    requires Established(registry, trace) && IsWait(registry, t, timeout)
    requires t.checked == t.at + WaitLength(timeout)
    ensures Verdict(DEFAULTS, registry, start, trace + [t]).None? <==> timeout <= 29.97
    ensures timeout > 29.97 ==> Verdict(DEFAULTS, registry, start, trace + [t]) == Some(HeartbeatTimeout)
  {
    LastTurn(trace, t);
    SleepsReachDeadline(timeout, 999);
    CommandAndWindows(DEFAULTS, registry, start, trace, t);
  }
}
