/** Dialing a reader: its endpoints in declared order, over real clients.

    A plan says what an endpoint will do when it is dialed, so every behaviour of the
    network is some list of plans. */
module Dialing {
  import opened Framing
  import opened Json
  import opened Time
  import opened BridgeProtocol
  import opened JsonLinesClient
  import opened Config

  const PROTOCOL_VERSION := 1
  const DEFAULT_CALL_TIMEOUT: real := 15.0

  predicate Supports(version: int) {
    version == PROTOCOL_VERSION
  }

  /** What dialing one endpoint comes to. */
  datatype Plan = NoDialer | Unreachable | Reaches(incoming: seq<ReadEvent>, outgoing: seq<WriteEvent>)

  /** A hello result, decoded. */
  datatype Session = Session(reader: string, capabilities: set<string>, mode: string, protocolVersion: int)

  /** One collaborator per capability; null when the reader did not announce it. */
  datatype Ports = Ports(
    speech: JSONLinesClient?, braille: JSONLinesClient?, gestures: JSONLinesClient?, focus: JSONLinesClient?,
    state: JSONLinesClient?, config: JSONLinesClient?, announcer: JSONLinesClient?)

  datatype ReaderConnection = ReaderConnection(
    session: Session, endpoint: Endpoint, lifecycle: JSONLinesClient, ports: Ports)

  datatype SessionOptions = SessionOptions(mode: string, logLevel: Option<string>)

  datatype DialResult =
    | Welcome(connection: ReaderConnection)
    | Mismatch(version: int)
    | NotReached                                  // no dialer, or nothing there
    | HelloFailed

  predicate GoesOn(r: DialResult) {
    r.NotReached? || r.HelloFailed?
  }

  // ---- what dialing comes to ------------------------------------------------------------------

  function HelloArguments(opts: SessionOptions): Json {
    var base: map<string, Json> := map["mode" := Str(opts.mode), "protocolVersion" := Int(PROTOCOL_VERSION)];
    Obj(if opts.logLevel.Some? then base["logLevel" := Str(opts.logLevel.value)] else base)
  }

  function HelloRequest(opts: SessionOptions): Request {
    Request(1, "hello", Some(HelloArguments(opts)))
  }

  /** What an endpoint answers: nothing when it was not reached. */
  datatype Answer = NoAnswer | Welcomes(session: Session) | Disagrees(version: int) | Fails

  function Understood(o: Outcome, parse: Json -> Option<Session>): Answer {
    if !o.Answered? || !o.reply.Result? then Fails
    else
      match parse(o.reply.value)
      case None => Fails
      case Some(session) => if Supports(session.protocolVersion) then Welcomes(session) else Disagrees(session.protocolVersion)
  }

  /** The answer of one endpoint, and when it is known. */
  function EndpointAnswer(codec: Codec, parse: Json -> Option<Session>, opts: SessionOptions, plan: Plan, now: real): (Answer, real) {
    if !plan.Reaches? then (NoAnswer, now)
    else if !codec.canRequest(HelloRequest(opts)) then (Fails, now)
    else
      var (o, after) := RoundTrip(codec, HelloRequest(opts), Wire([], plan.incoming, plan.outgoing, now, []), DEFAULT_CALL_TIMEOUT);
      (Understood(o, parse), after.now)
  }

  /** The answers in order, up to the first welcome or disagreement. */
  function Answers(codec: Codec, parse: Json -> Option<Session>, opts: SessionOptions, plans: seq<Plan>, now: real)
    : (answers: seq<Answer>)
    ensures |answers| <= |plans| && (plans != [] ==> answers != [])
    ensures forall i | 0 <= i < |answers| - 1 :: answers[i].NoAnswer? || answers[i].Fails?
    ensures answers != [] && (answers[|answers| - 1].NoAnswer? || answers[|answers| - 1].Fails?) ==> |answers| == |plans|
  {
    if plans == [] then []
    else
      var (a, later) := EndpointAnswer(codec, parse, opts, plans[0], now);
      [a] + if a.Welcomes? || a.Disagrees? then [] else Answers(codec, parse, opts, plans[1..], later)
  }

  function AnswerOf(r: DialResult): Answer {
    match r
    case Welcome(connection) => Welcomes(connection.session)
    case Mismatch(version) => Disagrees(version)
    case NotReached => NoAnswer
    case HelloFailed => Fails
  }

  function AnswersOf(results: seq<DialResult>): (answers: seq<Answer>)
    ensures |answers| == |results|
  {
    seq(|results|, i requires 0 <= i < |results| => AnswerOf(results[i]))
  }

  // ---- the code ---------------------------------------------------------------------------------

  function PortFor(capability: string, announced: set<string>, client: JSONLinesClient): JSONLinesClient? {
    if capability in announced then client else null
  }

  /** Ports are handed over exactly for the announced capabilities. */
  ghost predicate Gated(c: ReaderConnection) {
    var announced, client, p := c.session.capabilities, c.lifecycle, c.ports;
    && p.speech == PortFor("speech", announced, client)
    && p.braille == PortFor("braille", announced, client)
    && p.gestures == PortFor("gestures", announced, client)
    && p.focus == PortFor("focus", announced, client)
    && p.state == PortFor("state", announced, client)
    && p.config == PortFor("config", announced, client)
    && p.announcer == PortFor("announce", announced, client)
  }

  method HandOver(client: JSONLinesClient, announced: set<string>) returns (p: Ports)
    ensures p.speech == PortFor("speech", announced, client)
    ensures p.braille == PortFor("braille", announced, client)
    ensures p.gestures == PortFor("gestures", announced, client)
    ensures p.focus == PortFor("focus", announced, client)
    ensures p.state == PortFor("state", announced, client)
    ensures p.config == PortFor("config", announced, client)
    ensures p.announcer == PortFor("announce", announced, client)
  {
    p := Ports(null, null, null, null, null, null, null);
    if "speech" in announced {
      p := p.(speech := client);
    }
    if "braille" in announced {
      p := p.(braille := client);
    }
    if "gestures" in announced {
      p := p.(gestures := client);
    }
    if "focus" in announced {
      p := p.(focus := client);
    }
    if "state" in announced {
      p := p.(state := client);
    }
    if "config" in announced {
      p := p.(config := client);
    }
    if "announce" in announced {
      p := p.(announcer := client);
    }
  }

  /** The handshake over a fresh client: one hello call, and everything follows from how it
      ended. */
  method Hello(client: JSONLinesClient, endpoint: Endpoint, opts: SessionOptions, parse: Json -> Option<Session>)
    returns (r: DialResult)
    requires client.Valid(NoCall) && !client.lost && client.nextID == 1
    modifies client, client.lines, client.machine, client.transport, client.transport.clock
    ensures client.Valid(NoCall)
    ensures !client.codec.canRequest(HelloRequest(opts)) ==>
              r == HelloFailed && !client.lost && client.transport.clock.now == old(client.transport.clock.now)
    ensures client.codec.canRequest(HelloRequest(opts)) ==> (
        var (o, after) := RoundTrip(client.codec, HelloRequest(opts), old(client.Now()), DEFAULT_CALL_TIMEOUT);
        && AnswerOf(r) == Understood(o, parse) && !r.NotReached? && client.Now() == after
        && client.machine.requests == old(client.machine.requests) + [HelloRequest(opts)]
        && client.machine.outcomes == old(client.machine.outcomes) + [o])
    ensures r.Welcome? ==>
        !client.lost && r.connection.lifecycle == client && r.connection.endpoint == endpoint && Gated(r.connection)
  {
    hide JSONLinesClient.Valid, RoundTrip;
    var answer := client.Call("hello", Some(HelloArguments(opts)), DEFAULT_CALL_TIMEOUT);
    if !answer.Ended? || !answer.outcome.Answered? || !answer.outcome.reply.Result? {
      return HelloFailed;
    }
    var result := parse(answer.outcome.reply.value);
    if result.None? {
      return HelloFailed;
    }
    var session := result.value;
    if !Supports(session.protocolVersion) {
      return Mismatch(session.protocolVersion);
    }
    var ports := HandOver(client, session.capabilities);
    r := Welcome(ReaderConnection(session, endpoint, client, ports));
  }

  class Dialer {
    const clock: Clock
    const codec: Codec
    const parse: Json -> Option<Session>

    constructor (clock: Clock, codec: Codec, parse: Json -> Option<Session>)
      ensures this.clock == clock && this.codec == codec && this.parse == parse
    {
      this.clock, this.codec, this.parse := clock, codec, parse;
    }

    /** One endpoint.  A transport that was opened without a session coming of it has been
        closed, once, whether the handshake or the caller did it. */
    method DialOne(endpoint: Endpoint, plan: Plan, opts: SessionOptions)
      returns (r: DialResult, ghost transport: Transport?)
      modifies clock
      ensures (AnswerOf(r), clock.now) == EndpointAnswer(codec, parse, opts, plan, old(clock.now))
      ensures transport != null <==> plan.Reaches?
      ensures transport != null ==>
                fresh(transport) && transport.script == plan.incoming && transport.closes == if r.Welcome? then 0 else 1
      ensures r.Welcome? ==> LiveConnection(r.connection, endpoint) && r.connection.lifecycle.transport == transport
      ensures r.Welcome? ==> fresh(r.connection.lifecycle.Own())
    {
      transport := null;
      if !plan.Reaches? {
        return NotReached, null;
      }
      var reached := new Transport(clock, plan.incoming, plan.outgoing);
      var client := new JSONLinesClient(codec, reached);
      r := Hello(client, endpoint, opts, parse);
      transport := reached;
      if !r.Welcome? {
        client.Close();
      }
    }

    ghost predicate LiveConnection(c: ReaderConnection, endpoint: Endpoint)
      reads c.lifecycle, c.lifecycle.lines, c.lifecycle.machine, c.lifecycle.transport
    {
      && c.endpoint == endpoint && Gated(c)
      && c.lifecycle.Valid(NoCall) && !c.lifecycle.lost && c.lifecycle.transport.clock == clock
    }

    /** One endpoint more, on top of the transports opened and closed so far. */
    method DialNext(endpoint: Endpoint, plan: Plan, opts: SessionOptions, ghost before: seq<Transport>)
      returns (r: DialResult, ghost after: seq<Transport>)
      requires AllClosed(before)
      modifies clock
      ensures (AnswerOf(r), clock.now) == EndpointAnswer(codec, parse, opts, plan, old(clock.now))
      ensures r.Welcome? ==> LiveConnection(r.connection, endpoint) && fresh(r.connection.lifecycle.Own())
      ensures |after| == |before| + if plan.Reaches? then 1 else 0
      ensures forall i | 0 <= i < |after| :: (i < |before| && after[i] == before[i]) || fresh(after[i])
      ensures AllClosedBut(after, if r.Welcome? then r.connection.lifecycle.transport else null)
      ensures GoesOn(r) ==> AllClosed(after)
    {
      hide EndpointAnswer, LiveConnection, AllClosed, AllClosedBut, Gated;
      ghost var transport;
      r, transport := DialOne(endpoint, plan, opts);
      after := if transport == null then before else before + [transport];
      if r.Welcome? {
        Winner(before, transport);
      } else {
        if transport != null {
          OneMoreClosed(before, transport);
        }
        NobodyWon(after);
      }
    }

    /** Each endpoint in declared order, until one welcomes us or answers in another version;
        `results` are what they answered.  Of the transports opened at most the winner's is
        still open, every other has been closed exactly once. */
    method Dial(endpoints: seq<Endpoint>, plans: seq<Plan>, opts: SessionOptions)
      returns (r: Option<DialResult>, ghost results: seq<DialResult>, ghost reached: seq<Transport>)
      requires |plans| == |endpoints|
      modifies clock
      ensures AnswersOf(results) == if opts.mode == "" then [] else Answers(codec, parse, opts, plans, old(clock.now))
      ensures r == if results == [] || GoesOn(results[|results| - 1]) then None else Some(results[|results| - 1])
      ensures r.Some? && r.value.Welcome? ==> (
          && LiveConnection(r.value.connection, endpoints[|results| - 1])
          && fresh(r.value.connection.lifecycle.Own()))
      ensures fresh(reached) && AllClosedBut(reached, if r.Some? && r.value.Welcome? then r.value.connection.lifecycle.transport else null)
      ensures |reached| == Opened(plans[..|results|])
    {
      hide Answers, Opened, LiveConnection, AnswersOf, AllClosedBut, JSONLinesClient.Own;
      if opts.mode == "" {
        NoneOpened(plans);
        NoResults();
        NobodyWon([]);
        return None, [], [];
      }
      r, results, reached := DialEach(endpoints, plans, opts);
    }

    method DialEach(endpoints: seq<Endpoint>, plans: seq<Plan>, opts: SessionOptions)
      returns (r: Option<DialResult>, ghost results: seq<DialResult>, ghost reached: seq<Transport>)
      requires |plans| == |endpoints|
      modifies clock
      ensures AnswersOf(results) == Answers(codec, parse, opts, plans, old(clock.now))
      ensures r == if results == [] || GoesOn(results[|results| - 1]) then None else Some(results[|results| - 1])
      ensures r.Some? && r.value.Welcome? ==> (
          && LiveConnection(r.value.connection, endpoints[|results| - 1])
          && fresh(r.value.connection.lifecycle.Own()))
      ensures fresh(reached) && AllClosedBut(reached, if r.Some? && r.value.Welcome? then r.value.connection.lifecycle.transport else null)
      ensures |reached| == Opened(plans[..|results|])
    {
      hide EndpointAnswer, Understood, Answers, Opened, LiveConnection, AnswersOf, AllClosed, AllClosedBut;
      hide JSONLinesClient.Own;
      results, reached := [], [];
      NoResults();
      NobodyWon(reached);
      NoneOpened(plans);
      ghost var all := Answers(codec, parse, opts, plans, clock.now);
      for i := 0 to |endpoints|
        invariant |results| == i && (i > 0 ==> GoesOn(results[i - 1]))
        invariant AnswersOf(results) + Answers(codec, parse, opts, plans[i..], clock.now) == all
        invariant fresh(reached) && AllClosed(reached)
        invariant |reached| == Opened(plans[..i])
      {
        var one;
        ghost var after;
        ghost var now := clock.now;
        one, after := DialNext(endpoints[i], plans[i], opts, reached);
        NextResult(codec, parse, opts, plans, i, now, clock.now, results, one, all);
        results, reached := results + [one], after;
        if !GoesOn(one) {
          return Some(one), results, reached;
        }
      }
      NobodyWon(reached);
      NoAnswersLeft(codec, parse, opts, plans, clock.now);
      r := None;
    }
  }

  ghost predicate AllClosed(transports: seq<Transport>)
    reads transports
  {
    forall i | 0 <= i < |transports| :: transports[i].closes == 1
  }

  /** The winner, if there is one, is open; every other transport has been closed once. */
  ghost predicate AllClosedBut(transports: seq<Transport>, winner: Transport?)
    reads transports
  {
    && (winner != null ==> winner in transports)
    && forall i | 0 <= i < |transports| :: transports[i].closes == if transports[i] == winner then 0 else 1
  }

  lemma Winner(transports: seq<Transport>, t: Transport)
    requires AllClosed(transports) && t.closes == 0
    ensures AllClosedBut(transports + [t], t)
  {
    assert (transports + [t])[|transports|] == t;
  }

  lemma OneMoreClosed(transports: seq<Transport>, t: Transport)
    requires AllClosed(transports) && t.closes == 1
    ensures AllClosed(transports + [t])
  {
  }

  lemma NobodyWon(transports: seq<Transport>)
    ensures AllClosed([])
    ensures AllClosed(transports) ==> AllClosedBut(transports, null)
  {
  }

  lemma NoneOpened(plans: seq<Plan>)
    ensures Opened(plans[..0]) == 0
  {
  }

  lemma OneMoreOpened(plans: seq<Plan>, i: nat)
    requires i < |plans|
    ensures Opened(plans[..i + 1]) == Opened(plans[..i]) + if plans[i].Reaches? then 1 else 0
  {
    assert plans[..i + 1][..i] == plans[..i];
  }

  lemma NoAnswersLeft(codec: Codec, parse: Json -> Option<Session>, opts: SessionOptions, plans: seq<Plan>, now: real)
    ensures Answers(codec, parse, opts, plans[|plans|..], now) == [] && plans[..|plans|] == plans
  {
  }

  lemma NoResults()
    ensures AnswersOf([]) == []
  {
  }

  lemma OneMoreResult(results: seq<DialResult>, r: DialResult)
    ensures AnswersOf(results + [r]) == AnswersOf(results) + [AnswerOf(r)]
  {
  }

  lemma NextAnswer(
    codec: Codec, parse: Json -> Option<Session>, opts: SessionOptions, plans: seq<Plan>, i: nat, now: real,
    before: seq<Answer>, all: seq<Answer>)
    requires i < |plans| && before + Answers(codec, parse, opts, plans[i..], now) == all
    ensures var (a, later) := EndpointAnswer(codec, parse, opts, plans[i], now);
      if a.Welcomes? || a.Disagrees? then before + [a] == all
      else (before + [a]) + Answers(codec, parse, opts, plans[i + 1..], later) == all
  {
    assert plans[i..][1..] == plans[i + 1..];
    var (a, later) := EndpointAnswer(codec, parse, opts, plans[i], now);
    var more := Answers(codec, parse, opts, plans[i + 1..], later);
    assert before + ([a] + more) == (before + [a]) + more;
  }

  /** One result more: the last there is, or the rest of them follow. */
  lemma NextResult(
    codec: Codec, parse: Json -> Option<Session>, opts: SessionOptions, plans: seq<Plan>, i: nat, now: real, later: real,
    before: seq<DialResult>, r: DialResult, all: seq<Answer>)
    requires i < |plans| && AnswersOf(before) + Answers(codec, parse, opts, plans[i..], now) == all
    requires (AnswerOf(r), later) == EndpointAnswer(codec, parse, opts, plans[i], now)
    ensures if GoesOn(r) then AnswersOf(before + [r]) + Answers(codec, parse, opts, plans[i + 1..], later) == all
            else AnswersOf(before + [r]) == all
    ensures Opened(plans[..i + 1]) == Opened(plans[..i]) + if plans[i].Reaches? then 1 else 0
  {
    hide EndpointAnswer, Answers, AnswersOf, Opened;
    NextAnswer(codec, parse, opts, plans, i, now, AnswersOf(before), all);
    OneMoreResult(before, r);
    OneMoreOpened(plans, i);
  }

  /** How many of the plans open a transport. */
  function Opened(plans: seq<Plan>): nat {
    if plans == [] then 0 else Opened(plans[..|plans| - 1]) + if plans[|plans| - 1].Reaches? then 1 else 0
  }
}
