/** The bridge server: one caller thread doing start and stop, and the accept-loop threads
    they spawn, interleaved step by step.

    A step is what one thread does while it holds the lock, or one call it makes without
    it.  Events pick the thread and whatever the listener, the factory or the session does;
    the properties hold after every sequence of events. */
module BridgeServer {
  import opened Framing

  datatype ServerState = Stopped | Listening | SessionActive

  /** Where an accept-loop thread is. */
  datatype Place =
    | CheckStop
    | Accepting
    | Building
    | Registering(sid: nat)
    | Registered(sid: nat, mustAsk: bool)         // status emitted next, then perhaps asked
    | AskingSelf(sid: nat)
    | InRun(sid: nat, found: set<nat>)            // and the filters in place when run() began
    | Clearing(sid: nat)
    | CheckNotify
    | Notifying
    | FinallyCheck
    | FinallyClose
    | FinallyLock
    | LastNotify                                  // nothing left but to tell observers
    | Exited

  /** Where the caller is; outside stop it is at rest. */
  datatype Caller =
    | AtRest
    | StopAsk(session: Option<nat>)
    | StopClose
    | StopJoin
    | StopFinish

  datatype Server = Server(
    state: ServerState,
    endpoint: Option<string>,
    active: Option<nat>,
    thread: Option<nat>,                          // the handle: an index into places
    stopping: bool,
    places: seq<Place>,                           // every thread ever spawned
    caller: Caller,
    asked: set<nat>,                              // sessions told to tear down
    sessions: nat,                                // sessions built so far
    filters: set<nat>)                            // sessions whose speech filter is registered

  const INITIAL := Server(Stopped, None, None, None, false, [], AtRest, {}, 0, {})

  datatype Accepted = Connected | NothingYet | Gone

  datatype CallerMove =
    | Start(bound: Option<string>)                // None: binding raised
    | StopBegins
    | StopAsks
    | StopCloses
    | StopJoins
    | StopEnds

  datatype ThreadMove =
    | Checks
    | Accepts(what: Accepted)
    | Builds(ok: bool)
    | Registers
    | Tells                                       // emits a status
    | AsksItself
    | Suppresses                                  // the session registers its filter
    | Lifts                                       // and takes it off
    | Returns                                     // run() is over, however it ended
    | Clears
    | ChecksAgain
    | FinallyChecks
    | FinallyCloses
    | FinallyStops

  datatype Event = Caller(move: CallerMove) | Thread(t: nat, act: ThreadMove)

  /** The session a thread has between registering it and clearing it. */
  function SessionOf(p: Place): Option<nat> {
    match p
    case Registered(sid, _) => Some(sid)
    case AskingSelf(sid) => Some(sid)
    case InRun(sid, _) => Some(sid)
    case Clearing(sid) => Some(sid)
    case _ => None
  }

  /** A thread past its last lock. */
  predicate Over(p: Place) {
    p.LastNotify? || p.Exited?
  }

  predicate CallerCan(s: Server, move: CallerMove) {
    match move
    case Start(_) => s.caller.AtRest?
    case StopBegins => s.caller.AtRest?
    case StopAsks => s.caller.StopAsk?
    case StopCloses => s.caller.StopClose?
    case StopJoins =>
      s.caller.StopJoin? && (s.thread.Some? && s.thread.value < |s.places| ==> s.places[s.thread.value].Exited?)
    case StopEnds => s.caller.StopFinish?
  }

  /** What a thread may do next.  A session's run, however it ends, leaves the filters it
      found: that is what Session.Run promises. */
  predicate ThreadCan(s: Server, p: Place, act: ThreadMove) {
    match act
    case Checks => p.CheckStop?
    case Accepts(_) => p.Accepting?
    case Builds(_) => p.Building?
    case Registers => p.Registering?
    case Tells => p.Registered? || p.Notifying? || p.LastNotify?
    case AsksItself => p.AskingSelf?
    case Suppresses => p.InRun?
    case Lifts => p.InRun?
    case Returns => p.InRun? && s.filters == p.found
    case Clears => p.Clearing?
    case ChecksAgain => p.CheckNotify?
    case FinallyChecks => p.FinallyCheck?
    case FinallyCloses => p.FinallyClose?
    case FinallyStops => p.FinallyLock?
  }

  predicate Can(s: Server, e: Event) {
    match e
    case Caller(move) => CallerCan(s, move)
    case Thread(t, act) => t < |s.places| && ThreadCan(s, s.places[t], act)
  }

  function CallerStep(s: Server, move: CallerMove): Server
    requires CallerCan(s, move)
  {
    match move
    case Start(bound) =>
      if !s.state.Stopped? || bound.None? then s
      else s.(state := Listening, endpoint := bound, stopping := false,
              thread := Some(|s.places|), places := s.places + [CheckStop])
    case StopBegins => s.(stopping := true, caller := StopAsk(s.active))
    case StopAsks =>
      s.(caller := StopClose,
         asked := if s.caller.session.Some? then s.asked + {s.caller.session.value} else s.asked)
    case StopCloses => s.(caller := StopJoin)
    case StopJoins => s.(caller := StopFinish)
    case StopEnds =>
      s.(state := Stopped, endpoint := None, active := None, thread := None, stopping := false, caller := AtRest)
  }

  /** Where the thread goes next. */
  function NextPlace(s: Server, p: Place, act: ThreadMove): Place
    requires ThreadCan(s, p, act)
  {
    match act
    case Checks => if s.stopping then FinallyCheck else Accepting
    case Accepts(what) => if what.Connected? then Building else if what.NothingYet? then CheckStop else FinallyCheck
    case Builds(ok) => if ok then Registering(s.sessions) else CheckStop
    case Registers => Registered(p.sid, s.stopping)
    case Tells =>
      if p.Registered? then (if p.mustAsk then AskingSelf(p.sid) else InRun(p.sid, s.filters))
      else if p.Notifying? then CheckStop
      else Exited
    case AsksItself => InRun(p.sid, s.filters)
    case Suppresses => p
    case Lifts => p
    case Returns => Clearing(p.sid)
    case Clears => CheckNotify
    case ChecksAgain => if s.stopping then CheckStop else Notifying
    case FinallyChecks => if s.stopping then Exited else FinallyClose
    case FinallyCloses => FinallyLock
    case FinallyStops => LastNotify
  }

  function ThreadStep(s: Server, t: nat, act: ThreadMove): Server
    requires t < |s.places| && ThreadCan(s, s.places[t], act)
  {
    var p := s.places[t];
    var s' := s.(places := s.places[t := NextPlace(s, p, act)]);
    match act
    case Builds(_) => s'.(sessions := s.sessions + 1)
    case Registers => s'.(active := Some(p.sid), state := SessionActive)
    case AsksItself => s'.(asked := s.asked + {p.sid})
    case Suppresses => s'.(filters := s.filters + {p.sid})
    case Lifts => s'.(filters := s.filters - {p.sid})
    case Clears => s'.(active := None, state := if s.stopping then s.state else Listening)
    case FinallyStops => s'.(state := Stopped, endpoint := None, active := None)
    case _ => s'
  }

  function Step(s: Server, e: Event): Server
    requires Can(s, e)
  {
    match e
    case Caller(move) => CallerStep(s, move)
    case Thread(t, act) => ThreadStep(s, t, act)
  }

  ghost predicate IsRun(events: seq<Event>, states: seq<Server>) {
    && |states| == |events| + 1
    && states[0] == INITIAL
    && forall i | 0 <= i < |events| :: Can(states[i], events[i]) && states[i + 1] == Step(states[i], events[i])
  }

  // ---- what every step keeps ------------------------------------------------------------------

  /** The status pair, and what it says about threads and sessions. */
  ghost predicate StatusOk(s: Server) {
    && (s.state.Stopped? <==> s.endpoint.None?)
    && (s.state.Stopped? ==> forall t | 0 <= t < |s.places| :: Over(s.places[t]))
    && (!s.stopping ==> (s.state.SessionActive? <==> s.active.Some?))
  }

  /** The only filter there can be is that of the session in run(), which found none. */
  ghost predicate FiltersOk(s: Server)
    requires s.thread.Some? ==> s.thread.value < |s.places|
  {
    if s.thread.Some? && s.places[s.thread.value].InRun?
    then s.places[s.thread.value].found == {} && s.filters <= {s.places[s.thread.value].sid}
    else s.filters == {}
  }

  /** Only the thread behind the handle is alive, and the registered session is its own. */
  ghost predicate ThreadsOk(s: Server) {
    && (s.thread.Some? ==> s.thread.value < |s.places|)
    && (forall t | 0 <= t < |s.places| && s.thread != Some(t) :: Over(s.places[t]))
    && s.active == (if s.thread.Some? then SessionOf(s.places[s.thread.value]) else None)
    && FiltersOk(s)
  }

  /** The stop flag is up exactly while the caller is in stop, and by the time it has joined
      the thread is gone. */
  ghost predicate CallerOk(s: Server) {
    && (s.stopping <==> !s.caller.AtRest?)
    && (s.caller.StopFinish? && s.thread.Some? && s.thread.value < |s.places| ==> s.places[s.thread.value].Exited?)
  }

  /** A session that will run, or runs, while a stop is on has been asked to tear down, will
      be asked by its own thread, or is held by the stop caller, who asks next. */
  ghost predicate NotMissed(s: Server, t: nat)
    requires t < |s.places|
  {
    match s.places[t]
    case Registered(sid, mustAsk) =>
      if mustAsk then s.stopping else (s.stopping ==> sid in s.asked || s.caller == StopAsk(Some(sid)))
    case InRun(sid, _) => s.stopping ==> sid in s.asked || s.caller == StopAsk(Some(sid))
    case AskingSelf(_) => s.stopping
    case _ => true
  }

  ghost predicate Inv(s: Server) {
    StatusOk(s) && ThreadsOk(s) && CallerOk(s) && forall t | 0 <= t < |s.places| :: NotMissed(s, t)
  }

  lemma CallerKeepsInv(s: Server, move: CallerMove)
    requires Inv(s) && CallerCan(s, move)
    ensures Inv(CallerStep(s, move))
  {
    var s' := CallerStep(s, move);
    assert forall t | 0 <= t < |s.places| :: s'.places[t] == s.places[t] && NotMissed(s, t);
  }

  lemma ThreadKeepsStatus(s: Server, t: nat, act: ThreadMove)
    requires Inv(s) && t < |s.places| && ThreadCan(s, s.places[t], act)
    ensures var s' := ThreadStep(s, t, act); StatusOk(s') && ThreadsOk(s') && CallerOk(s')
  {
    var s' := ThreadStep(s, t, act);
    assert forall u | 0 <= u < |s.places| && u != t :: s'.places[u] == s.places[u];
    hide NotMissed;
  }

  lemma ThreadKeepsAsked(s: Server, t: nat, act: ThreadMove, u: nat)
    requires Inv(s) && t < |s.places| && ThreadCan(s, s.places[t], act) && u < |s.places|
    ensures NotMissed(ThreadStep(s, t, act), u)
  {
    assert NotMissed(s, u);
  }

  lemma ThreadKeepsInv(s: Server, t: nat, act: ThreadMove)
    requires Inv(s) && t < |s.places| && ThreadCan(s, s.places[t], act)
    ensures Inv(ThreadStep(s, t, act))
  {
    ThreadKeepsStatus(s, t, act);
    forall u | 0 <= u < |s.places| ensures NotMissed(ThreadStep(s, t, act), u) {
      ThreadKeepsAsked(s, t, act, u);
    }
    hide StatusOk, ThreadsOk, CallerOk, NotMissed;
    assert |ThreadStep(s, t, act).places| == |s.places|;
  }

  lemma {:induction false} RunKeepsInv(events: seq<Event>, states: seq<Server>, n: nat)
    requires IsRun(events, states) && n < |states|
    ensures Inv(states[n])
  {
    if n > 0 {
      RunKeepsInv(events, states, n - 1);
      assert states[n] == Step(states[n - 1], events[n - 1]);
      match events[n - 1]
      case Caller(move) => CallerKeepsInv(states[n - 1], move);
      case Thread(t, act) => ThreadKeepsInv(states[n - 1], t, act);
    }
  }

  // ---- what it is for ---------------------------------------------------------------------------

  /** In every reachable state the server is stopped exactly when it has no endpoint. */
  lemma StoppedMeansNoEndpoint(events: seq<Event>, states: seq<Server>, n: nat)
    requires IsRun(events, states) && n < |states|
    ensures states[n].state.Stopped? <==> states[n].endpoint.None?
  {
    RunKeepsInv(events, states, n);
  }

  /** Stop never misses a session: whatever the interleaving, a session in run() while the
      stop flag is up has been asked, or the stop caller has it and asks next. */
  lemma StopMissesNoSession(events: seq<Event>, states: seq<Server>, n: nat, t: nat)
    requires IsRun(events, states) && n < |states| && t < |states[n].places|
    requires states[n].stopping && states[n].places[t].InRun?
    ensures states[n].places[t].sid in states[n].asked || states[n].caller == StopAsk(Some(states[n].places[t].sid))
  {
    RunKeepsInv(events, states, n);
    assert NotMissed(states[n], t);
  }

  /** Once the stop caller has asked and goes on, every session still in run() was asked. */
  lemma AskedBeforeJoining(events: seq<Event>, states: seq<Server>, n: nat, t: nat)
    requires IsRun(events, states) && n < |states| && t < |states[n].places|
    requires states[n].caller.StopClose? || states[n].caller.StopJoin? || states[n].caller.StopFinish?
    ensures states[n].places[t].InRun? ==> states[n].places[t].sid in states[n].asked
  {
    RunKeepsInv(events, states, n);
    assert NotMissed(states[n], t);
  }

  /** When stop returns nothing is left: no session, no thread that could touch the state,
      no endpoint, no suppressed speech. */
  lemma StopIsFinal(events: seq<Event>, states: seq<Server>, n: nat)
    requires IsRun(events, states) && n < |events| && events[n] == Caller(StopEnds)
    ensures var s := states[n + 1];
      && s.state.Stopped? && s.endpoint.None? && s.active.None? && s.thread.None? && !s.stopping
      && s.filters == {}
      && (forall t | 0 <= t < |s.places| :: Over(s.places[t]))
      && (states[n].thread.Some? ==> states[n].thread.value < |s.places| && s.places[states[n].thread.value].Exited?)
  {
    RunKeepsInv(events, states, n);
    RunKeepsInv(events, states, n + 1);
  }

  /** Speech is suppressed only while a session runs and by that session alone, however the
      ones before it ended; and sessions run one at a time. */
  lemma SuppressedOnlyInRun(events: seq<Event>, states: seq<Server>, n: nat)
    requires IsRun(events, states) && n < |states|
    ensures states[n].filters != {} ==>
              exists t | 0 <= t < |states[n].places| :: states[n].places[t].InRun? && states[n].filters == {states[n].places[t].sid}
    ensures forall t, u | 0 <= t < |states[n].places| && 0 <= u < |states[n].places|
              && states[n].places[t].InRun? && states[n].places[u].InRun? :: t == u
  {
    RunKeepsInv(events, states, n);
  }

  /** While the server is stopped nothing is suppressed and nothing can come to be, until the
      next start. */
  lemma StoppedIsQuiet(events: seq<Event>, states: seq<Server>, n: nat, act: ThreadMove, t: nat)
    requires IsRun(events, states) && n < |states| && states[n].state.Stopped?
    ensures states[n].filters == {} && states[n].active.None?
    ensures Can(states[n], Thread(t, act)) ==> act.Tells? && Step(states[n], Thread(t, act)).state.Stopped?
  {
    RunKeepsInv(events, states, n);
  }

  // ---- stop comes back ----------------------------------------------------------------------------

  /** How many steps a thread has left once the stop flag is up. */
  function StepsLeft(p: Place): nat {
    match p
    case Accepting => 12
    case Building => 11
    case Registering(_) => 10
    case Registered(_, _) => 9
    case AskingSelf(_) => 8
    case InRun(_, _) => 7
    case Clearing(_) => 6
    case CheckNotify => 5
    case Notifying => 5
    case CheckStop => 4
    case FinallyCheck => 3
    case FinallyClose => 3
    case FinallyLock => 2
    case LastNotify => 1
    case Exited => 0
  }

  /** How many steps a stop in progress has left, its thread's included. */
  function StopWork(s: Server): nat {
    (match s.caller
     case AtRest => 0
     case StopAsk(_) => 4
     case StopClose => 3
     case StopJoin => 2
     case StopFinish => 1)
    + if s.thread.Some? && s.thread.value < |s.places| then StepsLeft(s.places[s.thread.value]) else 0
  }

  /** A step of the stop caller or of the thread it joins, a session's own work apart. */
  predicate Counts(s: Server, e: Event) {
    match e
    case Caller(_) => true
    case Thread(t, act) => s.thread == Some(t) && !act.Suppresses? && !act.Lifts?
  }

  /** Each of them brings a stop nearer its end, and nothing takes it back. */
  lemma StopWorkDescends(s: Server, e: Event)
    requires Inv(s) && s.stopping && Can(s, e)
    ensures Counts(s, e) ==> StopWork(Step(s, e)) < StopWork(s)
    ensures !Counts(s, e) ==> StopWork(Step(s, e)) == StopWork(s)
  {
    hide NotMissed;
  }

  /** There is always one to take, or the session in run() has a filter to take off first. */
  lemma StopGoesOn(s: Server) returns (e: Event)
    requires Inv(s) && s.stopping
    ensures Can(s, e)
    ensures Counts(s, e)
            || (s.thread.Some? && e == Thread(s.thread.value, Lifts) && Can(Step(s, e), Thread(s.thread.value, Returns)))
  {
    hide NotMissed;
    if s.caller.StopAsk? {
      e := Caller(StopAsks);
    } else if s.caller.StopClose? {
      e := Caller(StopCloses);
    } else if s.caller.StopFinish? {
      e := Caller(StopEnds);
    } else if s.thread.Some? && !s.places[s.thread.value].Exited? {
      e := Thread(s.thread.value, NextAct(s, s.places[s.thread.value]));
    } else {
      e := Caller(StopJoins);
    }
  }

  /** Some act of a thread that is not over. */
  function NextAct(s: Server, p: Place): (act: ThreadMove)
    requires !p.Exited?
    ensures !p.InRun? ==> ThreadCan(s, p, act)
  {
    match p
    case CheckStop => Checks
    case Accepting => Accepts(Gone)
    case Building => Builds(false)
    case Registering(_) => Registers
    case Registered(_, _) => Tells
    case AskingSelf(_) => AsksItself
    case InRun(_, _) => if s.filters == {} then Returns else Lifts
    case Clearing(_) => Clears
    case CheckNotify => ChecksAgain
    case Notifying => Tells
    case FinallyCheck => FinallyChecks
    case FinallyClose => FinallyCloses
    case FinallyLock => FinallyStops
    case LastNotify => Tells
  }

  /** The steps that count between two states of a run. */
  function StepsTaken(events: seq<Event>, states: seq<Server>, n: nat, m: nat): nat
    requires n <= m <= |events| && |states| == |events| + 1
    decreases m - n
  {
    if n == m then 0 else StepsTaken(events, states, n, m - 1) + if Counts(states[m - 1], events[m - 1]) then 1 else 0
  }

  /** Whatever else happens, a stop is over after at most sixteen steps of its own and its
      thread's, provided they are taken: that a session in run() returns when it was asked
      is what Session.Loop promises. */
  lemma {:induction false} StopIsBounded(events: seq<Event>, states: seq<Server>, n: nat, m: nat)
    requires IsRun(events, states) && n <= m <= |events|
    requires forall i | n <= i < m :: states[i].stopping
    ensures StepsTaken(events, states, n, m) + StopWork(states[m]) <= StopWork(states[n]) <= 16
    decreases m - n
  {
    hide Step, Can, Counts, StopWork, Inv;
    StopWorkIsSmall(states[n]);
    if n < m {
      StopIsBounded(events, states, n, m - 1);
      RunKeepsInv(events, states, m - 1);
      StopWorkDescends(states[m - 1], events[m - 1]);
    }
  }

  lemma StopWorkIsSmall(s: Server)
    ensures StopWork(s) <= 16
  {
  }
}
