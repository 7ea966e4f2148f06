/** Tool calls over the current connection, and the rule that follows every one of them. */
module Dispatcher {
  import opened Framing
  import opened Json
  import opened BridgeProtocol
  import opened JsonLinesClient
  import opened Dialing
  import opened ToolCatalog
  import opened Connection

  /** The tools by what they do with the connection: open it, end it, check it, use it for one
      round trip, or leave it alone. */
  datatype Tool = ConnectTool | DisconnectTool | StatusTool | LocalTool | BridgeTool(cmd: string)

  /** What a call brings along; each tool reads its own part. */
  datatype Arguments = Arguments(reader: string, mode: string, logLevel: string, params: Option<Json>, budget: real)

  datatype ToolResult =
    | UnknownTool
    | Rejected                                    // the arguments are not a connect request
    | Opening(result: ConnectResult)
    | Closing
    | Checking(found: VerifyResult)
    | Done
    | NoSession
    | Called(answer: CallResult)

  const MODES: set<string> := {"silent", "live"}
  const LOG_LEVELS: set<string> := {"debug", "io", "debugwarning", "info"}

  function OptionsOf(args: Arguments): Option<SessionOptions> {
    if args.reader == "" || args.mode !in MODES then None
    else if args.logLevel == "" then Some(SessionOptions(args.mode, None))
    else if args.logLevel in LOG_LEVELS then Some(SessionOptions(args.mode, Some(args.logLevel)))
    else None
  }

  class ToolDispatcher {
    const registry: map<string, Tool>
    const control: ConnectionController

    constructor (registry: map<string, Tool>, control: ConnectionController)
      ensures this.registry == registry && this.control == control
    {
      this.registry, this.control := registry, control;
    }

    /** The call was made with the tool's own command, and its client is gone afterwards exactly
        by a loss or by an answer that breaks the protocol.  With a session whose every reply
        gets out whole, an answer does that exactly when an earlier call had timed out: the
        check a caller could make before. */
    ghost predicate Exchanged(
      client: JSONLinesClient, id: int, requests: seq<Request>, outcomes: seq<Outcome>,
      cmd: string, params: Option<Json>, answer: CallResult)
      reads client, client.machine
    {
      && (answer.Ended? ==>
            && requests + [Request(id, cmd, params)] <= client.machine.requests
            && outcomes + [answer.outcome] <= client.machine.outcomes)
      && (answer.Ended? && answer.outcome != Lost ==> (client.lost <==> BreaksProtocol(answer)))
      && (answer.Ended? && answer.outcome !in {Lost, TimedOut} && LawfulPeer(client.machine) ==>
            (client.lost <==> TimedOut in outcomes))
    }

    ghost predicate Uses(name: string, tool: Tool) {
      name in registry && registry[name] == tool
    }

    /** One call.  Only connecting opens a session; one ends by disconnecting, by a check that
        finds it lost, or by a bridge tool's call that does, and then the ungated tools are
        left.  Every other call leaves the session as it was. */
    method Execute(name: string, args: Arguments, plan: nat -> Plan) returns (r: ToolResult)
      requires control.Valid()
      modifies control`state, control`connection, control`published, control`dials, control.publisher
      modifies control.dialer.clock, control.Footprint()
      ensures control.Valid()
      ensures r.UnknownTool? <==> name !in registry
      ensures r.Opening? || r.Rejected? <==> Uses(name, ConnectTool)
      ensures r.Closing? <==> Uses(name, DisconnectTool)
      ensures r.Checking? <==> Uses(name, StatusTool)
      ensures r.Called? || r.NoSession? <==> name in registry && registry[name].BridgeTool?
      ensures r.Called? || (r.Checking? && !r.found.NothingToVerify?) ==> old(control.connection).Some?
      ensures r.NoSession? ==> old(control.connection).None?
      // who opens a session, and who ends one
      ensures control.dials > old(control.dials) <==> r.Opening? && !r.result.UnknownReader? && !r.result.AlreadyLive?
      ensures r.Opening? ==>
                (r.result.Opened? ==> old(control.connection).None? && control.connection.Some?)
                && (!r.result.Opened? ==> control.connection == old(control.connection))
      ensures control.connection.None? && old(control.connection).Some? <==>
                old(control.connection).Some?
                && (r.Closing? || (r.Checking? && r.found.FoundLost?) || (r.Called? && IsConnectionLost(r.answer)))
      ensures !r.Opening? && control.connection.Some? ==> control.connection == old(control.connection)
      ensures control.connection.None? ==> control.publisher.advertised == ToSet(UngatedNames(control.catalog.gates))
      // what a bridge tool's call did, and over what client it left the session
      ensures r.Called? ==>
                Exchanged(old(control.connection).value.lifecycle, old(control.connection.value.lifecycle.nextID),
                  old(control.connection.value.lifecycle.machine.requests),
                  old(control.connection.value.lifecycle.machine.outcomes), registry[name].cmd, args.params, r.answer)
    {
      hide JSONLinesClient.Valid, RoundTrip, Exchanged, Answers, AnswersOf;
      if name !in registry {
        return UnknownTool;
      }
      match registry[name]
      case LocalTool =>
        r := Done;
      case ConnectTool =>
        var opts := OptionsOf(args);
        if opts.None? {
          return Rejected;
        }
        var result;
        ghost var results;
        result, results := control.Connect(args.reader, opts.value, plan);
        r := Opening(result);
      case DisconnectTool =>
        control.Disconnect();
        r := Closing;
      case StatusTool =>
        var checked;
        ghost var answer;
        checked, answer := control.Verify();
        r := Checking(checked);
      case BridgeTool(cmd) =>
        if control.connection.None? {
          return NoSession;
        }
        var answer := OverBridge(cmd, args);
        r := Called(answer);
    }

    /** A tool's round trip over the live session, and the rule after it: a loss is recorded
        before the answer is returned. */
    method OverBridge(cmd: string, args: Arguments) returns (answer: CallResult)
      requires control.Valid() && control.connection.Some?
      modifies control`state, control`connection, control`published, control.publisher
      modifies control.dialer.clock, control.Footprint()
      ensures control.Valid()
      ensures control.connection == if IsConnectionLost(answer) then None else old(control.connection)
      ensures Exchanged(old(control.connection).value.lifecycle, old(control.connection.value.lifecycle.nextID),
                old(control.connection.value.lifecycle.machine.requests),
                old(control.connection.value.lifecycle.machine.outcomes), cmd, args.params, answer)
    {
      hide RoundTrip, Machine.Legal, LineReader.Valid, LawfulPeer;
      var client := control.connection.value.lifecycle;
      answer := client.Call(cmd, args.params, args.budget);
      if answer.Ended? && answer.outcome !in {Lost, TimedOut} && LawfulPeer(client.machine) {
        RejectedAfterTimeout(client.machine);
        ghost var outcomes := old(control.connection.value.lifecycle.machine.outcomes);
        assert client.machine.outcomes[..|outcomes|] == outcomes;
      }
      if IsConnectionLost(answer) {
        var checked;
        ghost var ping;
        checked, ping := control.Verify();
      }
    }
  }
}
