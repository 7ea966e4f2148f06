/** The bridge protocol end to end: one client, one session, two byte streams.

    The machine below interleaves the client's steps (write a few bytes, take in a
    chunk, judge a frame, give up), the session's (take in a chunk, answer a frame,
    end) and the network, which may hold bytes back for as long as it likes and cut
    them anywhere.  The client half is the same `ClientStep` that the imperative
    JSONLinesClient is proved to follow. */
module BridgeProtocol {
  import opened Framing
  import opened Json

  datatype Request = Request(id: int, cmd: string, params: Option<Json>)
  datatype Reply = Result(value: Json) | Error(message: string)
  datatype Response = Response(id: int, reply: Reply)

  /** JSON text encoding is library code on both sides; the protocol needs this much of it.
      What a library refuses to encode (a lone surrogate, a value nested too deep) is for it
      to say. */
  datatype Codec = Codec(
    canRequest: Request -> bool, encodeRequest: Request -> bytes, decodeRequest: bytes -> Option<Request>,
    canResponse: Response -> bool, encodeResponse: Response -> bytes, decodeResponse: bytes -> Option<Response>)
  {
    /** Decoding undoes encoding, where there is one; no encoding contains a raw newline; and
        broken-off pieces with one more encoding behind them do not decode, which TornReplies
        proves of JSON. */
    ghost predicate Lawful() {
      && (forall r | canRequest(r) :: decodeRequest(encodeRequest(r)) == Some(r) && NEWLINE !in encodeRequest(r))
      && (forall r | canResponse(r) :: decodeResponse(encodeResponse(r)) == Some(r) && NEWLINE !in encodeResponse(r))
      && (forall torn, r | AllTorn(torn) && Pieces(torn) != [] && canResponse(r) ::
            decodeResponse(Pieces(torn) + encodeResponse(r)) == None)
    }

    /** The bytes of a reply, if it can be encoded at all. */
    function ReplyFrame(request: Request, reply: Reply): bytes {
      if canResponse(Response(request.id, reply)) then Frame(encodeResponse(Response(request.id, reply))) else []
    }

    /** The reply went out to its last byte. */
    predicate Whole(h: Handled) {
      canResponse(Response(h.request.id, h.reply)) && h.out == ReplyFrame(h.request, h.reply)
    }

    /** The reply broke off, or none of it went out. */
    predicate Torn(h: Handled) {
      h.out <= ReplyFrame(h.request, h.reply) && !Whole(h)
    }

    ghost predicate AllTorn(handled: seq<Handled>) {
      forall h | h in handled :: Torn(h)
    }

    ghost predicate AllSound(handled: seq<Handled>) {
      forall h | h in handled :: Whole(h) || Torn(h)
    }
  }

  /** A request the session handled, the reply it computed, and the bytes of it that got out:
      a write may fail anywhere, and the session goes on after it. */
  datatype Handled = Handled(request: Request, reply: Reply, out: bytes)

  /** All that got out for these requests. */
  function Pieces(handled: seq<Handled>): bytes {
    if handled == [] then [] else handled[0].out + Pieces(handled[1..])
  }

  // ---- the client ------------------------------------------------------------

  /** Where the (single, serialised) call stands. */
  datatype Call = NoCall | Sending(id: int, unsent: bytes) | Awaiting(id: int)

  datatype Client = Client(nextID: int, lost: bool, buffer: bytes, call: Call)

  /** How a call can end. */
  datatype Outcome =
    | Answered(reply: Reply)   // the result, or the bridge's refusal
    | TimedOut
    | Lost                     // the transport ended or failed
    | WrongID(got: int)
    | Unreadable

  datatype ClientEvent =
    | Begin(cmd: string, params: Option<Json>)   // takes an id even if nothing can be encoded
    | Wrote(n: nat)                          // the transport took n more bytes
    | Arrived(chunk: bytes)
    | Judge                                  // pop a complete frame and match it
    | GiveUp                                 // the deadline passed with no complete frame
    | Broke                                  // end of stream or a transport error
    | Closed                                 // Close() between calls

  function Unsent(c: Client): bytes {
    if c.call.Sending? then c.call.unsent else []
  }

  const NEW_CLIENT := Client(1, false, [], NoCall)

  predicate ClientCan(c: Client, e: ClientEvent) {
    && !c.lost
    && match e
       case Begin(_, _) => c.call.NoCall?
       case Wrote(n) => c.call.Sending? && 0 < n <= |c.call.unsent|
       case Arrived(chunk) => c.call.Awaiting? && FindNewline(c.buffer) < 0
       case Judge => c.call.Awaiting? && FindNewline(c.buffer) >= 0
       case GiveUp => c.call.Awaiting? && FindNewline(c.buffer) < 0
       case Broke => c.call.Sending? || (c.call.Awaiting? && FindNewline(c.buffer) < 0)
       case Closed => c.call.NoCall?
  }

  function ClientStep(codec: Codec, c: Client, e: ClientEvent): (r: (Client, Option<Outcome>))
    requires ClientCan(c, e)
  {
    match e
    case Begin(cmd, params) =>
      var request := Request(c.nextID, cmd, params);
      (c.(nextID := c.nextID + 1,
          call := if codec.canRequest(request) then Sending(c.nextID, Frame(codec.encodeRequest(request))) else NoCall),
       None)
    case Wrote(n) =>
      var unsent := c.call.unsent[n..];
      (c.(call := if unsent == [] then Awaiting(c.call.id) else Sending(c.call.id, unsent)), None)
    case Arrived(chunk) => (c.(buffer := c.buffer + chunk), None)
    case Judge =>
      var i := FindNewline(c.buffer);
      var popped := c.(buffer := c.buffer[i + 1..], call := NoCall);
      (match codec.decodeResponse(c.buffer[..i])
       case None => (popped.(lost := true), Some(Unreadable))
       case Some(response) =>
         if response.id != c.call.id then (popped.(lost := true), Some(WrongID(response.id)))
         else (popped, Some(Answered(response.reply))))
    case GiveUp => (c.(call := NoCall), Some(TimedOut))
    case Broke => (c.(lost := true, call := NoCall), Some(Lost))
    case Closed => (c.(lost := true), None)
  }

  // ---- the whole system --------------------------------------------------------

  /** `up` and `down` are bytes in flight; `pending` is what the session has taken in but not
      yet cut, `running` whether it still reads.  The rest is history: every request sent,
      how each of them ended so far, every request the session handled, how many calls there
      were up to the last one answered, and the bytes a client's broken write left unsent. */
  datatype System = System(
    client: Client, up: bytes, down: bytes, pending: bytes, running: bool,
    sent: seq<Request>, outcomes: seq<Outcome>, handled: seq<Handled>, seen: nat, unwritten: bytes)

  datatype Event =
    | Of(event: ClientEvent)
    | SessionReads(n: nat)
    | SessionAnswers(reply: Reply, n: nat)     // n bytes of the reply get out, if it has as many
    | SessionEnds

  const START := System(NEW_CLIENT, [], [], [], true, [], [], [], 0, [])

  predicate Can(s: System, e: Event) {
    match e
    case Of(event) =>
      && ClientCan(s.client, event)
      && (event.Arrived? ==> event.chunk <= s.down)
    case SessionReads(n) => s.running && n <= |s.up|
    case SessionAnswers(_, _) => s.running && FindNewline(s.pending) >= 0
    case SessionEnds => s.running
  }

  function Step(codec: Codec, s: System, e: Event): System
    requires Can(s, e)
  {
    match e
    case Of(event) =>
      var (client, outcome) := ClientStep(codec, s.client, event);
      s.(client := client,
         up := if event.Wrote? then s.up + s.client.call.unsent[..event.n] else s.up,
         down := if event.Arrived? then s.down[|event.chunk|..] else s.down,
         sent := if event.Begin? && codec.canRequest(Request(s.client.nextID, event.cmd, event.params))
                 then s.sent + [Request(s.client.nextID, event.cmd, event.params)] else s.sent,
         outcomes := if outcome.Some? then s.outcomes + [outcome.value] else s.outcomes,
         seen := if outcome.Some? && outcome.value.Answered? then |s.outcomes| + 1 else s.seen,
         unwritten := if event.Broke? then Unsent(s.client) else s.unwritten)
    case SessionReads(n) => s.(up := s.up[n..], pending := s.pending + s.up[..n])
    case SessionAnswers(reply, n) =>
      var i := FindNewline(s.pending);
      var popped := s.(pending := s.pending[i + 1..]);
      (match codec.decodeRequest(s.pending[..i])
       case None => popped   // no integer id to answer to
       case Some(request) =>
         var frame := codec.ReplyFrame(request, reply);
         var out := if n < |frame| then frame[..n] else frame;
         popped.(handled := s.handled + [Handled(request, reply, out)], down := s.down + out))
    case SessionEnds => s.(running := false)
  }

  // ---- what holds in every reachable state ----------------------------------------

  function RequestLines(codec: Codec, requests: seq<Request>): (lines: seq<bytes>) {
    if requests == [] then []
    else [codec.encodeRequest(requests[0])] + RequestLines(codec, requests[1..])
  }

  lemma RequestLinesSnoc(codec: Codec, requests: seq<Request>, last: Request)
    ensures RequestLines(codec, requests + [last]) == RequestLines(codec, requests) + [codec.encodeRequest(last)]
  {
    if requests != [] {
      assert (requests + [last])[1..] == requests[1..] + [last];
    }
  }

  lemma PiecesConcat(a: seq<Handled>, b: seq<Handled>)
    ensures Pieces(a + b) == Pieces(a) + Pieces(b)
  {
    if a == [] {
      assert a + b == b;
    } else {
      assert (a + b)[1..] == a[1..] + b;
      PiecesConcat(a[1..], b);
    }
  }

  /** The first of `handled` from `i` on of whose reply anything got out. */
  function NextOut(handled: seq<Handled>, i: nat): (j: nat)
    requires i <= |handled|
    ensures i <= j <= |handled|
    ensures j < |handled| ==> handled[j].out != []
    ensures forall k | i <= k < j :: handled[k].out == []
    decreases |handled| - i
  {
    if i == |handled| || handled[i].out != [] then i else NextOut(handled, i + 1)
  }

  /** The first of `handled` from `i` on whose reply got out whole. */
  function NextWhole(codec: Codec, handled: seq<Handled>, i: nat): (j: nat)
    requires i <= |handled|
    ensures i <= j <= |handled|
    ensures j < |handled| ==> codec.Whole(handled[j])
    ensures forall k | i <= k < j :: !codec.Whole(handled[k])
    decreases |handled| - i
  {
    if i == |handled| || codec.Whole(handled[i]) then i else NextWhole(codec, handled, i + 1)
  }

  /** What the law says of one encoding, and of pieces before it. */
  lemma ResponseLaw(codec: Codec, torn: seq<Handled>, r: Response)
    requires codec.Lawful() && codec.canResponse(r)
    ensures NEWLINE !in codec.encodeResponse(r)
    ensures Pieces(torn) == [] ==> codec.decodeResponse(Pieces(torn) + codec.encodeResponse(r)) == Some(r)
    ensures codec.AllTorn(torn) && Pieces(torn) != [] ==>
              codec.decodeResponse(Pieces(torn) + codec.encodeResponse(r)) == None
  {
    hide Pieces;
    assert [] + codec.encodeResponse(r) == codec.encodeResponse(r);
  }

  function ResponseOf(h: Handled): Response {
    Response(h.request.id, h.reply)
  }

  lemma {:induction false} TornHasNoNewline(codec: Codec, torn: seq<Handled>)
    requires codec.Lawful() && codec.AllTorn(torn)
    ensures NEWLINE !in Pieces(torn)
  {
    if torn != [] {
      var h := torn[0];
      assert codec.Torn(h);
      if h.out != [] {
        ResponseLaw(codec, [], ResponseOf(h));
      }
      TornHasNoNewline(codec, torn[1..]);
    }
  }

  lemma {:induction false} NothingOut(handled: seq<Handled>)
    ensures Pieces(handled) == [] <==> forall h | h in handled :: h.out == []
  {
    if handled != [] {
      NothingOut(handled[1..]);
      assert handled == [handled[0]] + handled[1..];
    }
  }

  /** Everything written or still to be written that the session has not cut yet. */
  function UpQueue(s: System): bytes {
    s.pending + (s.up + (Unsent(s.client) + s.unwritten))
  }

  /** The session handles the client's requests in order, and the bytes on their way
      are exactly those it has not handled. */
  ghost predicate UpstreamOk(codec: Codec, s: System) {
    && |s.handled| <= |s.sent|
    && (forall i | 0 <= i < |s.sent| :: codec.canRequest(s.sent[i]))
    && (forall i | 0 <= i < |s.handled| :: s.handled[i].request == s.sent[i])
    && IsSplit(UpQueue(s), RequestLines(codec, s.sent[|s.handled|..]), [])
    && (s.unwritten != [] ==> s.client.lost)
  }

  /** While the connection lives, the bytes on their way to the client are what got out of the
      replies it has not seen, each of them whole or broken off. */
  ghost predicate DownstreamOk(codec: Codec, s: System) {
    && s.seen <= |s.handled|
    && codec.AllSound(s.handled)
    && (!s.client.lost ==> s.client.buffer + s.down == Pieces(s.handled[s.seen..]))
  }

  /** Correlation ids grow from call to call. */
  ghost predicate IdsOk(s: System) {
    && (forall i, j | 0 <= i < j < |s.sent| :: s.sent[i].id < s.sent[j].id)
    && (forall i | 0 <= i < |s.sent| :: s.sent[i].id < s.client.nextID)
    && (!s.client.call.NoCall? ==> s.sent != [] && s.client.call.id == s.sent[|s.sent| - 1].id)
  }

  /** Call `k` timed out although something of its reply got out. */
  ghost predicate Overdue(s: System, k: int) {
    0 <= k < |s.outcomes| && s.outcomes[k] == TimedOut && k < |s.handled| && s.handled[k].out != []
  }

  /** ... and it is the first such call. */
  ghost predicate FirstOverdue(s: System, k: int) {
    Overdue(s, k) && forall i | 0 <= i < k :: !Overdue(s, i)
  }

  /** Every reply of the session got out whole. */
  ghost predicate WroteAll(codec: Codec, s: System) {
    forall h | h in s.handled :: codec.Whole(h)
  }

  /** No overdue call comes before an answered one; on a live connection every call that was
      not answered timed out. */
  ghost predicate OutcomesOk(s: System) {
    && (s.client.lost ==> s.client.call.NoCall?)
    && |s.outcomes| + (if s.client.call.NoCall? then 0 else 1) == |s.sent|
    && s.seen <= |s.outcomes| && s.seen <= |s.handled|
    && (forall i | 0 <= i < |s.outcomes| && s.outcomes[i].Answered? :: i < s.seen)
    && (forall i | 0 <= i < s.seen :: s.outcomes[i].Answered? || (s.outcomes[i] == TimedOut && s.handled[i].out == []))
    && (!s.client.lost ==> forall i | 0 <= i < |s.outcomes| :: s.outcomes[i].Answered? || s.outcomes[i] == TimedOut)
  }

  /** Every answer is the reply the session computed for that very request. */
  ghost predicate Attributed(s: System) {
    forall i | 0 <= i < |s.outcomes| && s.outcomes[i].Answered? ::
      i < |s.handled| && s.outcomes[i].reply == s.handled[i].reply
  }

  /** Outcome `j` is a rejection that the first overdue call explains: its late reply came in
      whole, under its own id, or broken off and run into another. */
  ghost predicate Rejected(codec: Codec, s: System, j: nat, k: int)
    requires j < |s.outcomes|
  {
    && FirstOverdue(s, k) && k < j && k < |s.sent|
    && s.outcomes[j] == if codec.Whole(s.handled[k]) then WrongID(s.sent[k].id) else Unreadable
  }

  /** A frame is only ever rejected over the first overdue call, and that ends the connection. */
  ghost predicate RejectionsAreLate(codec: Codec, s: System) {
    forall j | 0 <= j < |s.outcomes| && (s.outcomes[j].WrongID? || s.outcomes[j].Unreadable?) ::
      s.client.lost && j == |s.outcomes| - 1 && exists k :: Rejected(codec, s, j, k)
  }

  ghost predicate LedgerOk(codec: Codec, s: System) {
    IdsOk(s) && OutcomesOk(s) && Attributed(s) && RejectionsAreLate(codec, s)
  }

  ghost predicate Inv(codec: Codec, s: System) {
    UpstreamOk(codec, s) && DownstreamOk(codec, s) && LedgerOk(codec, s)
  }

  // ---- upstream ----

  lemma BeginKeepsUpstream(codec: Codec, s: System, e: Event)
    requires codec.Lawful() && UpstreamOk(codec, s) && Can(s, e) && e.Of? && e.event.Begin?
    ensures UpstreamOk(codec, Step(codec, s, e))
  {
    var s' := Step(codec, s, e);
    var request := Request(s.client.nextID, e.event.cmd, e.event.params);
    if codec.canRequest(request) {
      var waiting := s.sent[|s.handled|..];
      assert s'.sent[|s'.handled|..] == waiting + [request];
      SplitPush(UpQueue(s), RequestLines(codec, waiting), codec.encodeRequest(request));
      RequestLinesSnoc(codec, waiting, request);
      var frame := Frame(codec.encodeRequest(request));
      assert UpQueue(s') == s.pending + (s.up + frame) by { assert frame + [] == frame; }
      assert UpQueue(s) == s.pending + s.up;
      Associates(s.pending, s.up, frame);
    }
  }

  /** The session answers the oldest request it has not handled. */
  lemma AnswersOldestRequest(codec: Codec, s: System, e: Event)
    requires codec.Lawful() && UpstreamOk(codec, s) && Can(s, e) && e.SessionAnswers?
    ensures |s.handled| < |s.sent|
    ensures codec.decodeRequest(s.pending[..FindNewline(s.pending)]) == Some(s.sent[|s.handled|])
    ensures |Step(codec, s, e).handled| == |s.handled| + 1 && Step(codec, s, e).handled[..|s.handled|] == s.handled
    ensures var h := Step(codec, s, e).handled[|s.handled|];
      && h.request == s.sent[|s.handled|] && h.reply == e.reply
      && (codec.Whole(h) || codec.Torn(h)) && Step(codec, s, e).down == s.down + h.out
    ensures UpstreamOk(codec, Step(codec, s, e))
  {
    var s' := Step(codec, s, e);
    var waiting := s.sent[|s.handled|..];
    SplitPop(s.pending, s.up + (Unsent(s.client) + s.unwritten), RequestLines(codec, waiting), []);
    assert s'.sent[|s'.handled|..] == waiting[1..];
    assert RequestLines(codec, waiting)[1..] == RequestLines(codec, waiting[1..]);
  }

  lemma OtherStepsKeepUpstream(codec: Codec, s: System, e: Event)
    requires UpstreamOk(codec, s) && Can(s, e) && !e.SessionAnswers? && !(e.Of? && e.event.Begin?)
    ensures UpstreamOk(codec, Step(codec, s, e))
  {
    var s' := Step(codec, s, e);
    assert UpQueue(s') == UpQueue(s) by {
      if e.SessionReads? {
        var read, left := s.up[..e.n], s.up[e.n..];
        var tail := Unsent(s.client) + s.unwritten;
        assert s.up == read + left;
        Associates(read, left, tail);
        Associates(s.pending, read, left + tail);
      } else if e.Of? && e.event.Wrote? {
        var wrote, left := s.client.call.unsent[..e.event.n], s.client.call.unsent[e.event.n..];
        assert s.client.call.unsent == wrote + left;
        Associates(wrote, left, s.unwritten);
        Associates(s.up, wrote, left + s.unwritten);
      }
    }
  }

  // ---- downstream ----

  lemma AnswerKeepsDownstream(codec: Codec, s: System, e: Event)
    requires codec.Lawful() && UpstreamOk(codec, s) && DownstreamOk(codec, s) && Can(s, e) && e.SessionAnswers?
    ensures DownstreamOk(codec, Step(codec, s, e))
  {
    AnswersOldestRequest(codec, s, e);
    var s' := Step(codec, s, e);
    assert s'.client == s.client && s'.seen == s.seen;
    var h := s'.handled[|s.handled|];
    assert s'.handled == s.handled + [h];
    hide Step, Can, UpstreamOk, Codec.Lawful, Codec.Torn, Codec.Whole;
    OneMoreOut(codec, s, s', h);
  }

  lemma OneMoreOut(codec: Codec, s: System, s': System, h: Handled)
    requires DownstreamOk(codec, s) && (codec.Whole(h) || codec.Torn(h))
    requires s'.client == s.client && s'.seen == s.seen && s'.handled == s.handled + [h] && s'.down == s.down + h.out
    ensures DownstreamOk(codec, s')
  {
    hide Codec.Torn, Codec.Whole;
    assert s'.handled[s.seen..] == s.handled[s.seen..] + [h];
    PiecesConcat(s.handled[s.seen..], [h]);
    assert Pieces([h]) == h.out + Pieces([]) == h.out;
    hide Pieces;
    Associates(s.client.buffer, s.down, h.out);
  }

  /** A whole reply ends the line that whatever is before it began. */
  lemma PiecesAround(codec: Codec, handled: seq<Handled>, j: nat)
    requires j < |handled| && codec.Whole(handled[j])
    ensures var encoded := codec.encodeResponse(ResponseOf(handled[j]));
      Pieces(handled) == Frame(Pieces(handled[..j]) + encoded) + Pieces(handled[j + 1..])
  {
    var encoded := codec.encodeResponse(ResponseOf(handled[j]));
    assert handled == handled[..j] + handled[j..] && handled[j..][1..] == handled[j + 1..];
    PiecesConcat(handled[..j], handled[j..]);
    assert Pieces(handled[j..]) == Frame(encoded) + Pieces(handled[j + 1..]);
    hide Pieces, Codec.Whole;
    Associates(Pieces(handled[..j]), encoded, [NEWLINE]);
    Associates(Pieces(handled[..j]), Frame(encoded), Pieces(handled[j + 1..]));
  }

  lemma FirstFrameHeld(held: bytes, more: bytes, line: bytes, rest: bytes)
    requires held + more == Frame(line) + rest && NEWLINE !in line && FindNewline(held) >= 0
    ensures held[..FindNewline(held)] == line && held[FindNewline(held) + 1..] + more == rest
  {
    var i := FindNewline(held);
    hide FindNewline;
    assert held == Frame(held[..i]) + held[i + 1..];
    Associates(Frame(held[..i]), held[i + 1..], more);
    SameFirstFrame(line, rest, held[..i], held[i + 1..] + more);
  }

  /** Before the next whole reply there is none. */
  lemma TornBefore(codec: Codec, handled: seq<Handled>)
    requires codec.AllSound(handled)
    ensures codec.AllTorn(handled[..NextWhole(codec, handled, 0)])
  {
    hide Codec.Whole, Codec.Torn;
    var j := NextWhole(codec, handled, 0);
    forall h | h in handled[..j] ensures codec.Torn(h) {
      var i :| 0 <= i < j && handled[i] == h;
    }
  }

  /** A newline is the end of some whole reply. */
  lemma NewlineMeansWhole(codec: Codec, handled: seq<Handled>)
    requires codec.Lawful() && codec.AllSound(handled) && NEWLINE in Pieces(handled)
    ensures NextWhole(codec, handled, 0) < |handled|
  {
    TornBefore(codec, handled);
    hide Codec.Lawful, Codec.AllSound, Codec.AllTorn, Pieces, NextWhole;
    if NextWhole(codec, handled, 0) == |handled| {
      assert handled[..|handled|] == handled;
      TornHasNoNewline(codec, handled);
    }
  }

  /** The first frame in a stream of such pieces is the next whole reply, run into by whatever
      broken-off pieces there are before it. */
  lemma FirstFrameOf(codec: Codec, handled: seq<Handled>, held: bytes, more: bytes)
    requires codec.Lawful() && codec.AllSound(handled)
    requires held + more == Pieces(handled) && FindNewline(held) >= 0
    ensures var j := NextWhole(codec, handled, 0);
      && j < |handled|
      && held[..FindNewline(held)] == Pieces(handled[..j]) + codec.encodeResponse(ResponseOf(handled[j]))
      && held[FindNewline(held) + 1..] + more == Pieces(handled[j + 1..])
  {
    hide Codec.Lawful, Codec.AllSound, Codec.AllTorn, Pieces, FindNewline, NextWhole;
    assert (held + more)[FindNewline(held)] == NEWLINE;
    NewlineMeansWhole(codec, handled);
    var j := NextWhole(codec, handled, 0);
    TornBefore(codec, handled);
    TornHasNoNewline(codec, handled[..j]);
    PiecesAround(codec, handled, j);
    var encoded, before, after := codec.encodeResponse(ResponseOf(handled[j])), Pieces(handled[..j]), Pieces(handled[j + 1..]);
    ResponseLaw(codec, [], ResponseOf(handled[j]));
    hide Codec.Whole;
    FirstFrameHeld(held, more, before + encoded, after);
  }

  /** Nothing got out before the next whole reply, or something of which the rest did not. */
  lemma OutBeforeWhole(codec: Codec, handled: seq<Handled>)
    requires codec.AllSound(handled) && NextWhole(codec, handled, 0) < |handled|
    ensures var f, j := NextOut(handled, 0), NextWhole(codec, handled, 0);
      f <= j && (codec.Whole(handled[f]) <==> f == j) && (Pieces(handled[..j]) == [] <==> f == j)
  {
    var f, j := NextOut(handled, 0), NextWhole(codec, handled, 0);
    assert handled[j].out != [];
    NothingOut(handled[..j]);
    hide Codec.Whole, Codec.AllSound, Pieces;
    if f < j {
      assert handled[..j][f].out != [];
    } else {
      forall h | h in handled[..j] ensures h.out == [] {
        var i :| 0 <= i < j && handled[i] == h;
      }
    }
  }

  /** How the first frame of such a stream decodes: by the first reply of which anything got
      out, which is all of it if that one is whole. */
  lemma FirstFrameDecodes(codec: Codec, handled: seq<Handled>, held: bytes, more: bytes)
    requires codec.Lawful() && codec.AllSound(handled)
    requires held + more == Pieces(handled) && FindNewline(held) >= 0
    ensures var f := NextOut(handled, 0);
      && f < |handled| && (!codec.Whole(handled[f]) ==> f + 1 < |handled|)
      && codec.decodeResponse(held[..FindNewline(held)]) ==
           (if codec.Whole(handled[f]) then Some(ResponseOf(handled[f])) else None)
      && (codec.Whole(handled[f]) ==> held[FindNewline(held) + 1..] + more == Pieces(handled[f + 1..]))
  {
    var f, j := NextOut(handled, 0), NextWhole(codec, handled, 0);
    FirstFrameOf(codec, handled, held, more);
    OutBeforeWhole(codec, handled);
    TornBefore(codec, handled);
    assert codec.canResponse(ResponseOf(handled[j]));
    ResponseLaw(codec, handled[..j], ResponseOf(handled[j]));
    hide Codec.Lawful, Codec.AllSound, Codec.AllTorn, Pieces, FindNewline, NextWhole, NextOut, Codec.Whole;
  }

  lemma NextOutFrom(handled: seq<Handled>, i: nat)
    requires i <= |handled|
    ensures NextOut(handled, i) == i + NextOut(handled[i..], 0)
  {
    var j, k := NextOut(handled, i), NextOut(handled[i..], 0);
    assert k < |handled[i..]| ==> handled[i..][k] == handled[i + k];
    assert j < |handled| ==> handled[i..][j - i] == handled[j];
  }

  lemma HandledWasSent(codec: Codec, s: System, i: nat)
    requires UpstreamOk(codec, s) && i < |s.handled|
    ensures i < |s.sent| && s.handled[i].request == s.sent[i]
  {
  }

  /** How the frame that a call judges decodes: by the oldest reply the client has not seen
      anything of. */
  lemma JudgesOldestReply(codec: Codec, s: System)
    requires codec.Lawful() && UpstreamOk(codec, s) && DownstreamOk(codec, s) && OutcomesOk(s) && IdsOk(s)
    requires !s.client.lost && s.client.call.Awaiting? && FindNewline(s.client.buffer) >= 0
    ensures var f := NextOut(s.handled, s.seen);
      && f < |s.handled| && f <= |s.outcomes| < |s.sent| && (!codec.Whole(s.handled[f]) ==> f < |s.outcomes|)
      && codec.decodeResponse(s.client.buffer[..FindNewline(s.client.buffer)]) ==
           (if codec.Whole(s.handled[f]) then Some(Response(s.sent[f].id, s.handled[f].reply)) else None)
      && (s.sent[f].id == s.client.call.id <==> f == |s.outcomes|)
      && (codec.Whole(s.handled[f]) ==>
            s.client.buffer[FindNewline(s.client.buffer) + 1..] + s.down == Pieces(s.handled[f + 1..]))
  {
    hide FindNewline, Pieces, UpstreamOk, Codec.Lawful, Codec.Whole, Codec.Torn;
    var left := s.handled[s.seen..];
    assert codec.AllSound(left);
    hide Codec.AllSound;
    FirstFrameDecodes(codec, left, s.client.buffer, s.down);
    NextOutFrom(s.handled, s.seen);
    var k := NextOut(left, 0);
    hide NextOut, DownstreamOk;
    assert left[k] == s.handled[s.seen + k] && left[k + 1..] == s.handled[s.seen + k + 1..];
    HandledWasSent(codec, s, s.seen + k);
    IdTellsCallsApart(s, s.seen + k);
    if !codec.Whole(left[k]) {
      HandledWasSent(codec, s, s.seen + k + 1);
    }
  }

  lemma IdTellsCallsApart(s: System, j: nat)
    requires IdsOk(s) && OutcomesOk(s) && !s.client.call.NoCall? && j < |s.sent|
    ensures j <= |s.outcomes| < |s.sent|
    ensures s.sent[j].id == s.client.call.id <==> j == |s.outcomes|
  {
    assert j < |s.outcomes| ==> s.sent[j].id < s.sent[|s.outcomes|].id;
  }

  lemma OtherStepsKeepDownstream(codec: Codec, s: System, e: Event)
    requires DownstreamOk(codec, s) && Can(s, e) && !e.SessionAnswers? && !(e.Of? && e.event.Judge?)
    ensures DownstreamOk(codec, Step(codec, s, e))
  {
    var s' := Step(codec, s, e);
    if e.Of? && e.event.Arrived? {
      var chunk, left := e.event.chunk, s.down[|e.event.chunk|..];
      assert s.down == chunk + left;
      Associates(s.client.buffer, chunk, left);
    }
  }

  // ---- the ledger ----

  /** Judging hands over the reply to the call in progress when no earlier call is overdue, and
      rejects what came of the reply to the first that is otherwise. */
  lemma JudgeOutcome(codec: Codec, s: System, e: Event)
    requires codec.Lawful() && UpstreamOk(codec, s) && DownstreamOk(codec, s) && IdsOk(s) && OutcomesOk(s)
    requires Can(s, e) && e.Of? && e.event.Judge?
    ensures var f, s' := NextOut(s.handled, s.seen), Step(codec, s, e);
      && s.seen <= f < |s.handled| && f <= |s.outcomes| < |s.sent|
      && (if f < |s.outcomes| then FirstOverdue(s, f) else codec.Whole(s.handled[f]) && forall k :: !Overdue(s, k))
      && s'.outcomes == s.outcomes + [
           if f == |s.outcomes| then Answered(s.handled[f].reply)
           else if codec.Whole(s.handled[f]) then WrongID(s.sent[f].id) else Unreadable]
      && s'.seen == (if f == |s.outcomes| then f + 1 else s.seen)
      && (s'.client.lost <==> f < |s.outcomes|)
    ensures DownstreamOk(codec, Step(codec, s, e))
  {
    JudgesOldestReply(codec, s);
    assert s.seen <= |s.handled| by { hide Step, Can, UpstreamOk; }
    OldestIsFirstOverdue(s);
    hide UpstreamOk, IdsOk, Codec.Lawful, OutcomesOk, Overdue, FirstOverdue, NextOut, Codec.Whole, Codec.Torn, Pieces;
  }

  /** Of the calls not yet seen answered, the first with anything of its reply out is the first
      overdue one, unless it is the call in progress. */
  lemma OldestIsFirstOverdue(s: System)
    requires OutcomesOk(s) && !s.client.lost
    ensures var f := NextOut(s.handled, s.seen);
      && (f < |s.handled| && f < |s.outcomes| ==> FirstOverdue(s, f))
      && (f >= |s.outcomes| ==> forall k :: !Overdue(s, k))
  {
    var f := NextOut(s.handled, s.seen);
    assert forall k | Overdue(s, k) :: k >= f;
  }

  lemma JudgeKeepsLedger(codec: Codec, s: System, e: Event)
    requires codec.Lawful() && Inv(codec, s) && Can(s, e) && e.Of? && e.event.Judge?
    ensures LedgerOk(codec, Step(codec, s, e)) && DownstreamOk(codec, Step(codec, s, e))
  {
    JudgeOutcome(codec, s, e);
    OutcomeKeepsLedger(codec, s, Step(codec, s, e), NextOut(s.handled, s.seen));
  }

  /** Ending the call in progress with an answer to it or with a rejection. */
  lemma OutcomeKeepsLedger(codec: Codec, s: System, s': System, f: nat)
    requires LedgerOk(codec, s) && !s.client.lost && !s.client.call.NoCall?
    requires s'.sent == s.sent && s'.handled == s.handled && s'.client.nextID == s.client.nextID
    requires s'.client.call == NoCall && f == NextOut(s.handled, s.seen) < |s.handled| && f <= |s.outcomes|
    requires if f == |s.outcomes|
             then !s'.client.lost && s'.seen == f + 1 && s'.outcomes == s.outcomes + [Answered(s.handled[f].reply)]
             else s'.client.lost && s'.seen == s.seen && FirstOverdue(s, f)
                  && s'.outcomes == s.outcomes + [if codec.Whole(s.handled[f]) then WrongID(s.sent[f].id) else Unreadable]
    ensures LedgerOk(codec, s')
  {
    hide Codec.Whole;
    assert forall i | 0 <= i < |s.outcomes| :: s'.outcomes[i] == s.outcomes[i];
    if f < |s.outcomes| {
      assert forall i | 0 <= i < f :: !Overdue(s, i) ==> !Overdue(s', i);
      assert Rejected(codec, s', |s.outcomes|, f);
    }
  }

  lemma ClientStepsKeepLedger(codec: Codec, s: System, e: Event)
    requires LedgerOk(codec, s) && Can(s, e) && e.Of? && !e.event.Judge?
    ensures LedgerOk(codec, Step(codec, s, e))
  {
    var s' := Step(codec, s, e);
    assert forall i | 0 <= i < |s.outcomes| :: s'.outcomes[i] == s.outcomes[i];
  }

  lemma SessionStepsKeepLedger(codec: Codec, s: System, e: Event)
    requires LedgerOk(codec, s) && Can(s, e) && !e.Of?
    ensures LedgerOk(codec, Step(codec, s, e))
  {
    HandlingKeepsLedger(codec, s, Step(codec, s, e));
  }

  lemma HandlingKeepsLedger(codec: Codec, s: System, s': System)
    requires LedgerOk(codec, s) && s.handled <= s'.handled
    requires s'.client == s.client && s'.sent == s.sent && s'.outcomes == s.outcomes && s'.seen == s.seen
    ensures LedgerOk(codec, s')
  {
    hide Codec.Whole;
    forall j | 0 <= j < |s'.outcomes| && (s'.outcomes[j].WrongID? || s'.outcomes[j].Unreadable?)
      ensures exists k :: Rejected(codec, s', j, k)
    {
      var k :| Rejected(codec, s, j, k);
      assert forall i | 0 <= i < k :: Overdue(s', i) ==> Overdue(s, i);
      assert Rejected(codec, s', j, k);
    }
  }

  lemma StepKeepsInv(codec: Codec, s: System, e: Event)
    requires codec.Lawful() && Inv(codec, s) && Can(s, e)
    ensures Inv(codec, Step(codec, s, e))
  {
    if e.SessionAnswers? {
      AnswersOldestRequest(codec, s, e);
      AnswerKeepsDownstream(codec, s, e);
    } else if e.Of? && e.event.Begin? {
      BeginKeepsUpstream(codec, s, e);
      OtherStepsKeepDownstream(codec, s, e);
    } else if e.Of? && e.event.Judge? {
      OtherStepsKeepUpstream(codec, s, e);
      JudgeKeepsLedger(codec, s, e);
    } else {
      OtherStepsKeepUpstream(codec, s, e);
      OtherStepsKeepDownstream(codec, s, e);
    }
    if !e.Of? {
      SessionStepsKeepLedger(codec, s, e);
    } else if !e.event.Judge? {
      ClientStepsKeepLedger(codec, s, e);
    }
  }

  // ---- the theorems, over every run --------------------------------------------------

  ghost predicate Run(codec: Codec, events: seq<Event>, states: seq<System>) {
    && |states| == |events| + 1
    && states[0] == START
    && forall i | 0 <= i < |events| :: Can(states[i], events[i]) && states[i + 1] == Step(codec, states[i], events[i])
  }

  lemma {:induction false} RunKeepsInv(codec: Codec, events: seq<Event>, states: seq<System>, n: nat)
    requires codec.Lawful() && Run(codec, events, states) && n <= |events|
    ensures Inv(codec, states[n])
  {
    if n > 0 {
      RunKeepsInv(codec, events, states, n - 1);
      StepKeepsInv(codec, states[n - 1], events[n - 1]);
    }
  }

  /** No reply is ever misattributed: in every state of every run, a call that was
      answered got the reply the session computed for that very request. */
  lemma NoMisattribution(codec: Codec, events: seq<Event>, states: seq<System>, n: nat, call: nat)
    requires codec.Lawful() && Run(codec, events, states) && n <= |events|
    requires call < |states[n].outcomes| && states[n].outcomes[call].Answered?
    ensures call < |states[n].handled| && call < |states[n].sent|
    ensures states[n].handled[call].request == states[n].sent[call]
    ensures states[n].handled[call].reply == states[n].outcomes[call].reply
    ensures forall i | 0 <= i < |states[n].handled| && i != call ::
              states[n].handled[i].request.id != states[n].sent[call].id
  {
    RunKeepsInv(codec, events, states, n);
  }

  /** The session handles the client's requests in order, each with one reply, and
      never one the client did not send. */
  lemma OneReplyEachInOrder(codec: Codec, events: seq<Event>, states: seq<System>, n: nat)
    requires codec.Lawful() && Run(codec, events, states) && n <= |events|
    ensures |states[n].handled| <= |states[n].sent|
    ensures forall i | 0 <= i < |states[n].handled| :: states[n].handled[i].request == states[n].sent[i]
    ensures forall i, j | 0 <= i < j < |states[n].sent| :: states[n].sent[i].id < states[n].sent[j].id
  {
    RunKeepsInv(codec, events, states, n);
  }

  /** After one call times out a later one is answered only if nothing of the reply to the first
      ever got out: a single byte of it stands between them. */
  lemma NothingAnsweredAfterTimeout(codec: Codec, events: seq<Event>, states: seq<System>, n: nat, i: nat, j: nat)
    requires codec.Lawful() && Run(codec, events, states) && n <= |events|
    requires i < j < |states[n].outcomes| && states[n].outcomes[i] == TimedOut && states[n].outcomes[j].Answered?
    ensures i < |states[n].handled| && states[n].handled[i].out == []
  {
    RunKeepsInv(codec, events, states, n);
  }

  /** When a frame is judged: it answers the call in progress exactly when no earlier call is
      overdue.  Otherwise the first that is decides, and the connection is closed: over its
      late reply, or over a line that begins with the piece that broke off. */
  lemma LateReplyCloses(codec: Codec, events: seq<Event>, states: seq<System>, n: nat)
    requires codec.Lawful() && Run(codec, events, states) && n < |events| && events[n] == Of(Judge)
    ensures var s, s', call := states[n], states[n + 1], |states[n].outcomes|;
      && call < |s.sent|
      && (s'.client.lost <==> exists k :: Overdue(s, k))
      && (!s'.client.lost ==> call < |s.handled| && s'.outcomes == s.outcomes + [Answered(s.handled[call].reply)])
      && (forall k | FirstOverdue(s, k) ::
            k < |s.sent| && s'.outcomes == s.outcomes + [
              if codec.Whole(s.handled[k]) then WrongID(s.sent[k].id) else Unreadable])
      && (s'.client.lost ==> exists k :: FirstOverdue(s, k))
  {
    RunKeepsInv(codec, events, states, n);
    var s := states[n];
    JudgeOutcome(codec, s, events[n]);
    var f := NextOut(s.handled, s.seen);
    forall k | FirstOverdue(s, k) ensures k == f {
      assert Overdue(s, k);
    }
  }

  /** An id is never wrong and a frame never unreadable for any other reason. */
  lemma OnlyLateRepliesAreRejected(codec: Codec, events: seq<Event>, states: seq<System>, n: nat, j: nat)
    requires codec.Lawful() && Run(codec, events, states) && n <= |events| && j < |states[n].outcomes|
    requires states[n].outcomes[j].WrongID? || states[n].outcomes[j].Unreadable?
    ensures states[n].client.lost && exists k :: Rejected(codec, states[n], j, k)
  {
    RunKeepsInv(codec, events, states, n);
  }

  /** The last call was answered exactly when none is overdue, and otherwise rejected over the
      first that is. */
  ghost predicate Decided(codec: Codec, s: System)
    requires s.outcomes != []
  {
    var last := |s.outcomes| - 1;
    && (s.outcomes[last].Answered? <==> forall k :: !Overdue(s, k))
    && (!s.outcomes[last].Answered? ==> exists k :: Rejected(codec, s, last, k))
  }

  /** A call that came to neither a loss nor a timeout was answered exactly when no earlier call
      is overdue; otherwise it was rejected with the id of the first that is, if its reply got
      out whole, and as unreadable if that broke off. */
  lemma AnsweredOrRejected(codec: Codec, events: seq<Event>, states: seq<System>, n: nat)
    requires codec.Lawful() && Run(codec, events, states) && n <= |events| && states[n].outcomes != []
    requires states[n].outcomes[|states[n].outcomes| - 1] !in {Lost, TimedOut}
    ensures Decided(codec, states[n])
  {
    assert |states| == |events| + 1;
    hide Run, Codec.Lawful;
    var s, last := states[n], |states[n].outcomes| - 1;
    if s.outcomes[last].Answered? {
      forall k | Overdue(s, k) ensures false {
        NothingAnsweredAfterTimeout(codec, events, states, n, k, last);
      }
    } else {
      OnlyLateRepliesAreRejected(codec, events, states, n, last);
      var k :| Rejected(codec, s, last, k);
      assert Overdue(s, k);
    }
  }

  /** If every reply got out whole, a call is overdue once it is behind an answer or a
      rejection: then exactly the calls that timed out are, and every rejection is a wrong id. */
  lemma TimedOutIsOverdue(codec: Codec, events: seq<Event>, states: seq<System>, n: nat)
    requires codec.Lawful() && Run(codec, events, states) && n <= |events| && states[n].outcomes != []
    requires states[n].outcomes[|states[n].outcomes| - 1] !in {Lost, TimedOut} && WroteAll(codec, states[n])
    ensures (exists k :: Overdue(states[n], k)) <==> TimedOut in states[n].outcomes
    ensures !states[n].outcomes[|states[n].outcomes| - 1].Unreadable?
  {
    assert |states| == |events| + 1;
    hide Run, Codec.Lawful;
    var s, last := states[n], |states[n].outcomes| - 1;
    AnsweredOrRejected(codec, events, states, n);
    forall k | 0 <= k < |s.handled| ensures s.handled[k].out != [] {
      assert codec.Whole(s.handled[k]);
    }
    if k :| 0 <= k < |s.outcomes| && s.outcomes[k] == TimedOut && s.outcomes[last].Answered? {
      NothingAnsweredAfterTimeout(codec, events, states, n, k, last);
    }
  }

  // ---- the laws can be met, and late replies happen ---------------------------------------

  function Position<T(==)>(x: T, xs: seq<T>): (i: nat)
    ensures i <= |xs| && (x in xs ==> i < |xs| && xs[i] == x)
  {
    if xs == [] || xs[0] == x then 0 else 1 + Position(x, xs[1..])
  }

  /** A mark, and so many ones. */
  function Tally(n: nat): bytes {
    [2] + seq(n, _ => 1)
  }

  function Tallied<T>(line: bytes, xs: seq<T>): Option<T> {
    if 0 < |line| <= |xs| && line == Tally(|line| - 1) then Some(xs[|line| - 1]) else None
  }

  /** A codec for the requests and responses of a run, whatever they hold: each is written
      as its number in the list. */
  function ListCodec(requests: seq<Request>, responses: seq<Response>): Codec {
    Codec(
      r => r in requests, r => Tally(Position(r, requests)), line => Tallied(line, requests),
      r => r in responses, r => Tally(Position(r, responses)), line => Tallied(line, responses))
  }

  /** Every finite choice of requests and responses has a lawful codec that can write them
      all, so every run is a run under some lawful codec. */
  lemma ListCodecIsLawful(requests: seq<Request>, responses: seq<Response>)
    ensures var codec := ListCodec(requests, responses);
      && codec.Lawful()
      && (forall r | r in requests :: codec.canRequest(r))
      && (forall r | r in responses :: codec.canResponse(r))
  {
    var codec := ListCodec(requests, responses);
    forall n: nat ensures NEWLINE !in Tally(n) && |Tally(n)| == n + 1 {
    }
    forall torn, r | codec.AllTorn(torn) && Pieces(torn) != [] && codec.canResponse(r)
      ensures codec.decodeResponse(Pieces(torn) + codec.encodeResponse(r)) == None
    {
      var line := Pieces(torn) + codec.encodeResponse(r);
      assert line[|Pieces(torn)|] == 2 && Tally(|line| - 1)[|Pieces(torn)|] == 1;
    }
  }

  const FIRST := Request(1, "echo", None)
  const SECOND := Request(2, "echo", None)
  const EARLY := Response(1, Result(Null))
  const LATER := Response(2, Result(Null))
  const LATE_CODEC := ListCodec([FIRST, SECOND], [EARLY, LATER])

  /** How that codec writes two requests and two responses, and reads what can come of them. */
  ghost predicate Spells(codec: Codec) {
    && codec.canRequest(FIRST) && codec.encodeRequest(FIRST) == [2] && codec.decodeRequest([2]) == Some(FIRST)
    && codec.canRequest(SECOND) && codec.encodeRequest(SECOND) == [2, 1] && codec.decodeRequest([2, 1]) == Some(SECOND)
    && codec.canResponse(EARLY) && codec.encodeResponse(EARLY) == [2] && codec.decodeResponse([2]) == Some(EARLY)
    && codec.canResponse(LATER) && codec.encodeResponse(LATER) == [2, 1] && codec.decodeResponse([2, 1]) == Some(LATER)
    && codec.decodeResponse([2, 2, 1]) == None
  }

  lemma LateCodecSpells()
    ensures Spells(LATE_CODEC) && LATE_CODEC.Lawful()
  {
    ListCodecIsLawful([FIRST, SECOND], [EARLY, LATER]);
    hide Codec.Lawful;
    assert Position(FIRST, [FIRST, SECOND]) == 0 && Position(SECOND, [FIRST, SECOND]) == 1;
    assert Position(EARLY, [EARLY, LATER]) == 0 && Position(LATER, [EARLY, LATER]) == 1;
    assert Tally(0) == [2] && Tally(1) == [2, 1] && Tally(2) == [2, 1, 1];
  }

  /** What gets out of the first reply, of two bytes. */
  function Stray(cut: nat): bytes
    requires cut <= 2
  {
    [2, NEWLINE][..cut]
  }

  const FIRST_FRAME: bytes := [2, NEWLINE]
  const SECOND_FRAME: bytes := [2, 1, NEWLINE]

  /** Ten steps: call, give up, call again; both requests are read and answered, `cut` bytes of
      the first reply get out, and what there is comes in and is judged. */
  function LateEvents(cut: nat): seq<Event>
    requires cut <= 2
  {
    [Of(Begin("echo", None)), Of(Wrote(2)), Of(GiveUp), Of(Begin("echo", None)), Of(Wrote(3)),
     SessionReads(5), SessionAnswers(Result(Null), cut), SessionAnswers(Result(Null), 3),
     Of(Arrived(Stray(cut) + SECOND_FRAME)), Of(Judge)]
  }

  function Moment(
    client: Client, up: bytes, pending: bytes, down: bytes, sent: seq<Request>, outcomes: seq<Outcome>,
    handled: seq<Handled>): System
  {
    System(client, up, down, pending, true, sent, outcomes, handled, 0, [])
  }

  /** What the second call comes to: the late reply, a line that begins with a piece of it, or
      its own. */
  function LateOutcome(cut: nat): Outcome {
    if cut == 2 then WrongID(1) else if cut == 1 then Unreadable else Answered(Result(Null))
  }

  /** The states between those steps. */
  function LateState(cut: nat, n: nat): System
    requires cut <= 2 && n <= 10
  {
    var both, gave := [FIRST, SECOND], [TimedOut];
    var one := Handled(FIRST, Result(Null), Stray(cut));
    var two := Handled(SECOND, Result(Null), SECOND_FRAME);
    var up := FIRST_FRAME + SECOND_FRAME;
    var down := Stray(cut) + SECOND_FRAME;
    match n
    case 0 => START
    case 1 => Moment(Client(2, false, [], Sending(1, FIRST_FRAME)), [], [], [], [FIRST], [], [])
    case 2 => Moment(Client(2, false, [], Awaiting(1)), FIRST_FRAME, [], [], [FIRST], [], [])
    case 3 => Moment(Client(2, false, [], NoCall), FIRST_FRAME, [], [], [FIRST], gave, [])
    case 4 => Moment(Client(3, false, [], Sending(2, SECOND_FRAME)), FIRST_FRAME, [], [], both, gave, [])
    case 5 => Moment(Client(3, false, [], Awaiting(2)), up, [], [], both, gave, [])
    case 6 => Moment(Client(3, false, [], Awaiting(2)), [], up, [], both, gave, [])
    case 7 => Moment(Client(3, false, [], Awaiting(2)), [], SECOND_FRAME, Stray(cut), both, gave, [one])
    case 8 => Moment(Client(3, false, [], Awaiting(2)), [], [], down, both, gave, [one, two])
    case 9 => Moment(Client(3, false, down, Awaiting(2)), [], [], [], both, gave, [one, two])
    case 10 =>
      var left: bytes := if cut == 2 then SECOND_FRAME else [];
      Moment(Client(3, cut > 0, left, NoCall), [], [], [], both, gave + [LateOutcome(cut)], [one, two])
        .(seen := if cut == 0 then 2 else 0)
  }

  predicate Follows(codec: Codec, cut: nat, n: nat)
    requires cut <= 2 && n < 10
  {
    Can(LateState(cut, n), LateEvents(cut)[n]) && Step(codec, LateState(cut, n), LateEvents(cut)[n]) == LateState(cut, n + 1)
  }

  lemma LateCalls(codec: Codec, cut: nat)
    requires Spells(codec) && cut <= 2
    ensures Follows(codec, cut, 0) && Follows(codec, cut, 1) && Follows(codec, cut, 2)
  {
    assert Frame(codec.encodeRequest(FIRST)) == FIRST_FRAME;
    hide Codec.ReplyFrame;
  }

  lemma LateSecondCall(codec: Codec, cut: nat)
    requires Spells(codec) && cut <= 2
    ensures Follows(codec, cut, 3) && Follows(codec, cut, 4)
  {
    assert Frame(codec.encodeRequest(SECOND)) == SECOND_FRAME;
    hide Codec.ReplyFrame;
  }

  lemma LateReading(codec: Codec, cut: nat)
    requires Spells(codec) && cut <= 2
    ensures Follows(codec, cut, 5)
  {
    var up := FIRST_FRAME + SECOND_FRAME;
    assert up[..5] == up && up[5..] == [] && [] + up == up;
  }

  lemma LateHandling(codec: Codec, cut: nat)
    requires Spells(codec) && cut <= 2
    ensures Follows(codec, cut, 6)
  {
    var up := FIRST_FRAME + SECOND_FRAME;
    assert FindNewline(up) == 1 && up[..1] == [2] && up[2..] == SECOND_FRAME;
    assert codec.ReplyFrame(FIRST, Result(Null)) == FIRST_FRAME && FIRST_FRAME[..2] == FIRST_FRAME;
    hide FindNewline, Codec.ReplyFrame;
  }

  lemma LateSecondHandling(codec: Codec, cut: nat)
    requires Spells(codec) && cut <= 2
    ensures Follows(codec, cut, 7)
  {
    assert FindNewline(SECOND_FRAME) == 2 && SECOND_FRAME[..2] == [2, 1] && SECOND_FRAME[3..] == [];
    assert codec.ReplyFrame(SECOND, Result(Null)) == SECOND_FRAME;
    hide FindNewline, Codec.ReplyFrame;
  }

  lemma LateArrival(codec: Codec, cut: nat)
    requires Spells(codec) && cut <= 2
    ensures Follows(codec, cut, 8)
  {
    var c, chunk := LateState(cut, 8).client, Stray(cut) + SECOND_FRAME;
    assert [] + chunk == chunk;
    assert ClientStep(codec, c, Arrived(chunk)) == (LateState(cut, 9).client, None);
    assert LateState(cut, 8).down == chunk && chunk[|chunk|..] == [];
    hide ClientStep;
  }

  /** The line the second call is given. */
  function LateLine(cut: nat): bytes {
    if cut == 2 then [2] else if cut == 1 then [2, 2, 1] else [2, 1]
  }

  lemma LateLineIsFirst(cut: nat)
    requires cut <= 2
    ensures var buffer := Stray(cut) + SECOND_FRAME;
      && FindNewline(buffer) == |LateLine(cut)| && buffer[..|LateLine(cut)|] == LateLine(cut)
      && buffer[|LateLine(cut)| + 1..] == if cut == 2 then SECOND_FRAME else []
  {
    var left: bytes := if cut == 2 then SECOND_FRAME else [];
    assert cut == 1 ==> Stray(cut) == [2];
    assert Stray(cut) + SECOND_FRAME == Frame(LateLine(cut)) + left;
    FirstFrame(LateLine(cut), left);
  }

  lemma LateVerdict(codec: Codec, cut: nat)
    requires Spells(codec) && cut <= 2
    ensures Follows(codec, cut, 9)
  {
    hide FindNewline;
    LateLineIsFirst(cut);
    var c := LateState(cut, 9).client;
    assert codec.decodeResponse(LateLine(cut)) == if cut == 2 then Some(EARLY) else if cut == 1 then None else Some(LATER);
    hide LateLine, Spells;
    assert ClientStep(codec, c, Judge)
             == (Client(3, cut > 0, if cut == 2 then SECOND_FRAME else [], NoCall), Some(LateOutcome(cut)));
    hide ClientStep;
  }

  lemma LateStepsFollow(codec: Codec, cut: nat)
    requires Spells(codec) && cut <= 2
    ensures forall n | 0 <= n < 10 :: Follows(codec, cut, n)
  {
    hide Follows, Spells;
    LateCalls(codec, cut);
    LateSecondCall(codec, cut);
    LateReading(codec, cut);
    LateHandling(codec, cut);
    LateSecondHandling(codec, cut);
    LateArrival(codec, cut);
    LateVerdict(codec, cut);
  }

  lemma LateEnds(codec: Codec, cut: nat)
    requires Spells(codec) && cut <= 2
    ensures FirstOverdue(LateState(cut, 9), 0) <==> cut > 0
    ensures cut == 2 ==> WroteAll(codec, LateState(cut, 10))
  {
    assert codec.ReplyFrame(FIRST, Result(Null)) == FIRST_FRAME && codec.ReplyFrame(SECOND, Result(Null)) == SECOND_FRAME;
    assert Stray(2) == FIRST_FRAME;
  }

  function LateStates(cut: nat): seq<System>
    requires cut <= 2
  {
    seq(11, n requires 0 <= n < 11 => LateState(cut, n))
  }

  lemma LateRun(codec: Codec, cut: nat)
    requires Spells(codec) && cut <= 2
    ensures Run(codec, LateEvents(cut), LateStates(cut))
  {
    LateStepsFollow(codec, cut);
    assert LateState(cut, 0) == START;
    hide Step, Can, Spells, LateState;
    var events, states := LateEvents(cut), LateStates(cut);
    forall i | 0 <= i < |events| ensures Can(states[i], events[i]) && states[i + 1] == Step(codec, states[i], events[i]) {
      assert Follows(codec, cut, i);
    }
  }

  /** In these runs the second call gets the late reply to the first, a line that a piece of it
      was glued to, or, if nothing of it got out, its own. */
  lemma LateReplyHappens(cut: nat)
    requires cut <= 2
    ensures LATE_CODEC.Lawful() && Run(LATE_CODEC, LateEvents(cut), LateStates(cut))
    ensures LateEvents(cut)[9] == Of(Judge) && (FirstOverdue(LateStates(cut)[9], 0) <==> cut > 0)
    ensures LateStates(cut)[10].outcomes == [TimedOut, LateOutcome(cut)] && (LateStates(cut)[10].client.lost <==> cut > 0)
    ensures cut == 2 ==> WroteAll(LATE_CODEC, LateStates(cut)[10])
  {
    LateCodecSpells();
    LateRun(LATE_CODEC, cut);
    LateEnds(LATE_CODEC, cut);
    hide ListCodec, Run, Codec.Lawful, Spells, WroteAll, FirstOverdue;
  }
}
