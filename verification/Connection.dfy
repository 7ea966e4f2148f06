/** The agent-side connection: connect, disconnect, verify and the heartbeat over real
    clients, with the advertised tool set following the session.

    Each method is one atomic step.  The invariant `Valid` is what a reader of the tool
    list relies on: the ungated tools, plus exactly what the session's capabilities allow
    while there is one. */
module Connection {
  import opened Framing
  import opened BridgeProtocol
  import opened JsonLinesClient
  import opened Config
  import opened Dialing
  import opened ToolCatalog

  const HEARTBEAT_INTERVAL: real := 20.0

  datatype ConnectionState = Disconnected | Connecting | Connected | Incompatible

  class ToolPublisher {
    var advertised: set<string>

    constructor (names: seq<string>)
      ensures advertised == ToSet(names)
    {
      advertised := ToSet(names);
    }

    method Publish(names: seq<string>)
      modifies this
      ensures advertised == old(advertised) + ToSet(names)
    {
      advertised := advertised + ToSet(names);
    }

    method Retract(names: seq<string>)
      modifies this
      ensures advertised == old(advertised) - ToSet(names)
    {
      advertised := advertised - ToSet(names);
    }
  }

  /** What the first so many endpoints will do. */
  function Plans(plan: nat -> Plan, n: nat): seq<Plan> {
    seq(n, i requires i >= 0 => plan(i))
  }

  /** The outcomes among the answers to a series of pings. */
  function Endings(answers: seq<CallResult>): seq<Outcome> {
    if answers == [] then []
    else
      Endings(answers[..|answers| - 1]) +
      if answers[|answers| - 1].Ended? then [answers[|answers| - 1].outcome] else []
  }

  predicate NoLoss(answers: seq<CallResult>) {
    forall i | 0 <= i < |answers| :: !IsConnectionLost(answers[i])
  }

  ghost predicate PingsEncode(codec: Codec) {
    forall id :: codec.canRequest(Request(id, "ping", None))
  }

  lemma NoAnswersYet()
    ensures Endings([]) == [] && NoLoss([])
  {
  }

  lemma OneAnswer(a: CallResult)
    ensures Endings([a]) == if a.Ended? then [a.outcome] else []
  {
    assert [a][..0] == [];
  }

  lemma OneMoreAnswer(answers: seq<CallResult>, a: CallResult)
    ensures Endings(answers + [a]) == Endings(answers) + Endings([a])
    ensures NoLoss(answers) && !IsConnectionLost(a) ==> NoLoss(answers + [a])
    ensures (answers + [a])[..|answers|] == answers
  {
    OneAnswer(a);
    assert (answers + [a])[..|answers|] == answers;
  }

  datatype ConnectResult = UnknownReader | AlreadyLive | NotConnected(incompatible: bool) | Opened

  datatype VerifyResult = NothingToVerify | Alive | FoundLost | PingRefused

  class ConnectionController {
    const readers: seq<Reader>
    const dialer: Dialer
    const publisher: ToolPublisher
    const catalog: Catalog
    var state: ConnectionState
    var connection: Option<ReaderConnection>
    var published: seq<string>
    var dials: nat

    ghost function Footprint(): set<object>
      reads this
    {
      if connection.Some? then connection.value.lifecycle.Own() else {}
    }

    ghost predicate Valid()
      reads this, publisher, Footprint()
    {
      && DistinctGates(catalog.gates)
      && (state.Connected? <==> connection.Some?)
      && published == (if connection.Some? then AllowedNames(catalog.gates, connection.value.session.capabilities) else [])
      && publisher.advertised == ToSet(UngatedNames(catalog.gates)) + ToSet(published)
      && (connection.Some? ==> SessionOk(connection.value))
    }

    ghost predicate SessionOk(c: ReaderConnection)
      reads c.lifecycle.Own()
    {
      Gated(c) && c.lifecycle.Valid(NoCall) && c.lifecycle.transport.clock == dialer.clock
    }

    constructor (readers: seq<Reader>, dialer: Dialer, publisher: ToolPublisher, catalog: Catalog)
      requires DistinctGates(catalog.gates) && publisher.advertised == ToSet(UngatedNames(catalog.gates))
      ensures Valid() && connection.None? && dials == 0
      ensures this.readers == readers && this.dialer == dialer && this.publisher == publisher && this.catalog == catalog
    {
      this.readers, this.dialer, this.publisher, this.catalog := readers, dialer, publisher, catalog;
      state, connection, published, dials := Disconnected, None, [], 0;
    }

    method Find(name: string) returns (r: Option<Reader>)
      ensures r.Some? <==> name in Names(readers)
      ensures r == if IndexOfName(readers, name) >= 0 then Some(readers[IndexOfName(readers, name)]) else None
    {
      IndexMeansNamed(readers, name);
      for i := 0 to |readers|
        invariant forall j | 0 <= j < i :: readers[j].name != name
      {
        if readers[i].name == name {
          assert IndexOfName(readers, name) == i;
          return Some(readers[i]);
        }
      }
      r := None;
    }

    /** Opens the one session.  It dials exactly when the reader is known and nothing is
        live; `plan` is what the reader's endpoints will do, `results` what they answered. */
    method Connect(name: string, opts: SessionOptions, plan: nat -> Plan)
      returns (r: ConnectResult, ghost results: seq<DialResult>)
      requires Valid()
      modifies this`state, this`connection, this`published, this`dials, publisher, dialer.clock
      ensures Valid()
      ensures r.UnknownReader? <==> name !in Names(readers)
      ensures r.AlreadyLive? <==> name in Names(readers) && old(connection).Some?
      ensures dials == old(dials) + if r.UnknownReader? || r.AlreadyLive? then 0 else 1
      ensures r.UnknownReader? || r.AlreadyLive? ==> (
          && connection == old(connection) && state == old(state) && results == []
          && publisher.advertised == old(publisher.advertised) && dialer.clock.now == old(dialer.clock.now))
      ensures !r.UnknownReader? && !r.AlreadyLive? ==> (
          var endpoints := readers[IndexOfName(readers, name)].endpoints;
          && AnswersOf(results) == (
              if opts.mode == "" then []
              else Answers(dialer.codec, dialer.parse, opts, Plans(plan, |endpoints|), old(dialer.clock.now)))
          && |results| <= |endpoints|
          && (r.Opened? <==> results != [] && results[|results| - 1].Welcome?)
          && (r.Opened? ==>
                && connection == Some(results[|results| - 1].connection)
                && connection.value.endpoint == endpoints[|results| - 1]
                && fresh(Footprint()) && !connection.value.lifecycle.lost)
          && (!r.Opened? ==>
                && r == NotConnected(results != [] && results[|results| - 1].Mismatch?)
                && connection.None? && state == if r.incompatible then Incompatible else Disconnected))
    {
      hide JSONLinesClient.Valid, AllowedNames, UngatedNames, DistinctGates, Answers, AnswersOf, AllClosedBut;
      results := [];
      var found := Find(name);
      IndexMeansNamed(readers, name);
      if found.None? {
        return UnknownReader, results;
      }
      if connection.Some? {
        return AlreadyLive, results;
      }
      state := Connecting;
      dials := dials + 1;
      var endpoints := found.value.endpoints;
      var dialed;
      ghost var reached;
      dialed, results, reached := dialer.Dial(endpoints, Plans(plan, |endpoints|), opts);
      if dialed.None? || !dialed.value.Welcome? {
        var incompatible := dialed.Some? && dialed.value.Mismatch?;
        state := if incompatible then Incompatible else Disconnected;
        return NotConnected(incompatible), results;
      }
      Adopt(dialed.value.connection);
      r := Opened;
    }

    /** The gate: what is published is what the announced capabilities allow, and no more. */
    method Adopt(c: ReaderConnection)
      requires DistinctGates(catalog.gates) && connection.None? && SessionOk(c)
      requires publisher.advertised == ToSet(UngatedNames(catalog.gates))
      modifies this`state, this`connection, this`published, publisher
      ensures Valid() && connection == Some(c)
    {
      hide AllowedNames, UngatedNames, JSONLinesClient.Valid;
      var names := catalog.Allowed(c.session.capabilities);
      connection, published, state := Some(c), names, Connected;
      publisher.Publish(names);
    }

    /** Drops the session and retracts what was published for it. */
    method Clear(state: ConnectionState)
      requires Valid() && !state.Connected?
      modifies this`state, this`connection, this`published, publisher
      ensures Valid() && connection.None? && this.state == state
      ensures publisher.advertised == ToSet(UngatedNames(catalog.gates))
    {
      if connection.Some? {
        NeverBoth(catalog.gates, connection.value.session.capabilities);
      }
      var names := published;
      connection, published, this.state := None, [], state;
      if |names| > 0 {
        publisher.Retract(names);
      }
    }

    /** Ends the session politely; nothing to do without one. */
    method Disconnect()
      requires Valid()
      modifies this`state, this`connection, this`published, publisher, dialer.clock, Footprint()
      ensures Valid() && connection.None? && publisher.advertised == ToSet(UngatedNames(catalog.gates))
      ensures old(connection).None? ==> state == old(state)
      ensures old(connection).Some? ==> (
          var client := old(connection).value.lifecycle;
          var bye := Request(old(connection.value.lifecycle.nextID), "bye", None);
          && state.Disconnected? && client.transport.closes == 1
          && (!old(client.lost) && client.codec.canRequest(bye) ==>
                client.machine.requests == old(client.machine.requests) + [bye]))
    {
      hide JSONLinesClient.Valid, RoundTrip;
      if connection.None? {
        return;
      }
      var client := connection.value.lifecycle;
      var failed := client.Bye(DEFAULT_CALL_TIMEOUT);
      client.Close();
      Clear(Disconnected);
    }

    /** A real round trip; `answer` is what the ping came to.  Only a loss ends the session; a
        bridge that answered, or says nothing, is there. */
    method Verify() returns (r: VerifyResult, ghost answer: CallResult)
      requires Valid()
      modifies this`state, this`connection, this`published, publisher, dialer.clock, Footprint()
      ensures Valid() && old(dialer.clock.now) <= dialer.clock.now
      ensures r.NothingToVerify? <==> old(connection).None?
      ensures old(connection).None? ==> dialer.clock.now == old(dialer.clock.now)
      ensures !r.FoundLost? ==> connection == old(connection) && state == old(state)
      ensures old(connection).Some? ==> (
          var client := old(connection).value.lifecycle;
          && client.Pinged(old(client.lost), old(client.machine.requests), old(client.machine.outcomes), old(client.nextID), answer)
          && (r.FoundLost? <==> IsConnectionLost(answer))
          && (client.lost <==> IsConnectionLost(answer) || BreaksProtocol(answer))
          && (r.Alive? <==> answer.Ended? && answer.outcome.Answered? && answer.outcome.reply.Result?)
          && (!old(client.lost) ==> FromTheWire(client, old(client.nextID), old(client.Now()), answer, !r.FoundLost?)))
      ensures r.FoundLost? ==>
                connection.None? && state.Disconnected? && old(connection).value.lifecycle.transport.closes == 1
    {
      hide JSONLinesClient.Valid, RoundTrip;
      answer := NotEncoded;
      if connection.None? {
        return NothingToVerify, answer;
      }
      var client := connection.value.lifecycle;
      var result := client.Ping(DEFAULT_CALL_TIMEOUT);
      answer := result;
      if result.Ended? && result.outcome.Answered? && result.outcome.reply.Result? {
        return Alive, answer;
      }
      if IsConnectionLost(result) {
        Lose();
        return FoundLost, answer;
      }
      r := PingRefused;
    }

    /** A ping over a live client came to what the wire had for it. */
    ghost predicate FromTheWire(client: JSONLinesClient, id: int, before: Wire, answer: CallResult, kept: bool)
      reads client, client.lines, client.transport, client.transport.clock, client.machine
    {
      var ping := Request(id, "ping", None);
      if answer == NotEncoded then !client.codec.canRequest(ping) && client.Now() == before.Did(Begin("ping", None))
      else
        var (o, after) := RoundTrip(client.codec, ping, before, DEFAULT_CALL_TIMEOUT);
        answer == Ended(o) && (kept ==> client.Now() == after)
    }

    method Lose()
      requires Valid() && connection.Some?
      modifies this`state, this`connection, this`published, publisher, Footprint()
      ensures Valid() && connection.None? && state.Disconnected?
      ensures old(connection).value.lifecycle.transport.closes == 1
      ensures old(connection).value.lifecycle.lost
      ensures var machine := old(connection).value.lifecycle.machine;
        machine.requests == old(connection.value.lifecycle.machine.requests)
        && machine.outcomes == old(connection.value.lifecycle.machine.outcomes)
    {
      connection.value.lifecycle.Close();
      Clear(Disconnected);
    }

    /** There is a session, and its peer is connected and says nothing. */
    ghost predicate Quiet()
      reads this, Footprint(), dialer.clock
    {
      && connection.Some? && !connection.value.lifecycle.lost
      && connection.value.lifecycle.transport.clock == dialer.clock
      && Silent(connection.value.lifecycle.Now())
    }

    /** One beat. */
    method Beat() returns (checked: VerifyResult, ghost answer: CallResult)
      requires Valid()
      modifies this`state, this`connection, this`published, publisher, dialer.clock, Footprint()
      ensures Valid() && dialer.clock.now >= old(dialer.clock.now) + HEARTBEAT_INTERVAL
      ensures if checked.FoundLost? then connection.None? else connection == old(connection)
      ensures checked.NothingToVerify? <==> old(connection).None?
      ensures old(connection).Some? ==> (
          var client := old(connection).value.lifecycle;
          && client.machine.outcomes == old(client.machine.outcomes) + Endings([answer])
          && (checked.FoundLost? <==> IsConnectionLost(answer))
          && (PingsEncode(client.codec) ==> answer != NotEncoded))
      ensures old(Quiet()) ==> Quiet()
    {
      hide JSONLinesClient.Valid, RoundTrip, Waiting;
      dialer.clock.Sleep(HEARTBEAT_INTERVAL);
      if connection.Some? && Silent(connection.value.lifecycle.Now()) {
        ghost var client := connection.value.lifecycle;
        SilenceTimesOut(client.codec, Request(client.nextID, "ping", None), client.Now(), DEFAULT_CALL_TIMEOUT);
      }
      checked, answer := Verify();
      OneAnswer(answer);
    }

    /** The heartbeat: so many beats until it is stopped, each a ping while there is a session;
        `answers` are what the pings came to.  It never opens a session, ends one at the first
        ping that finds it lost, and keeps one whose peer is connected, however silent. */
    method RunHeartbeat(beats: nat) returns (ghost answers: seq<CallResult>)
      requires Valid()
      modifies this`state, this`connection, this`published, publisher, dialer.clock, Footprint()
      ensures Valid() && dialer.clock.now >= old(dialer.clock.now) + beats as real * HEARTBEAT_INTERVAL
      ensures connection == old(connection) || connection.None?
      ensures old(connection).Some? ==>
                Beaten(old(connection).value.lifecycle, old(connection.value.lifecycle.machine.outcomes), answers, beats)
      ensures old(Quiet()) ==> connection == old(connection) && Quiet()
    {
      hide SessionOk, AllowedNames, UngatedNames, DistinctGates, Endings, NoLoss, Silent;
      answers := [];
      NoAnswersYet();
      for i := 0 to beats
        invariant Valid() && dialer.clock.now >= old(dialer.clock.now) + i as real * HEARTBEAT_INTERVAL
        invariant connection == old(connection) || connection.None?
        invariant old(connection).None? ==> answers == []
        invariant old(connection).Some? ==>
                    Beaten(old(connection).value.lifecycle, old(connection.value.lifecycle.machine.outcomes), answers, i)
        invariant old(Quiet()) ==> connection == old(connection) && Quiet()
      {
        var checked;
        ghost var answer;
        checked, answer := Beat();
        if !checked.NothingToVerify? {
          OneMoreAnswer(answers, answer);
          answers := answers + [answer];
        }
      }
    }

    /** Every beat over the live session was a ping and its outcome is recorded; the session
        is gone exactly after the first that found it lost. */
    ghost predicate Beaten(client: JSONLinesClient, before: seq<Outcome>, answers: seq<CallResult>, beats: nat)
      reads this, client.machine
    {
      && client.machine.outcomes == before + Endings(answers)
      && (connection.Some? ==> |answers| == beats && NoLoss(answers))
      && (connection.None? ==>
            0 < |answers| <= beats && NoLoss(answers[..|answers| - 1]) && IsConnectionLost(answers[|answers| - 1]))
      && (PingsEncode(client.codec) ==> NotEncoded !in answers)
    }
  }
}
